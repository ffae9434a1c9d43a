/** MyHeuristic (classical_planning/src/MyHeuristic.java): built once per
    problem from its actions (role classification and pair tables), then asked
    for the estimate of one node at a time. Every scratch array of the
    expansion is refilled at the start of each call, so an estimate is a
    function of the heuristic and the node alone. */
module Heuristic {
  import opened Results
  import opened Planning
  import opened Schemas
  import opened Classifier
  import opened SearchNode
  import opened RelaxedGraph

  /** The ground problem the planner receives: n facts, the initial state, the
      goal literals and the ground actions in the order the problem lists them. */
  datatype Problem = Problem(n: nat, init: State, goal: Cond, actions: seq<Action>)

  /** Every fact index is below n and every action carries one of the five
      schema names with the parameters the code reads. */
  predicate ProblemOk(p: Problem) {
    && StateBelow(p.init, p.n)
    && LitsBelow(p.goal, p.n)
    && forall i :: 0 <= i < |p.actions| ==>
         ActionBelow(p.actions[i], p.n) && Recognised(p.actions[i].name, p.actions[i].params)
  }

  /** What the heuristic keeps: the expansion's tables and the role mapping. */
  datatype Heuristic = Heuristic(table: Table, roles: Mapping)

  predicate HeuristicOk(h: Heuristic) {
    TableOk(h.table) && MappingOk(h.roles)
  }

  /** The constructor (MyHeuristic.java lines 73-323): the role sets hold exactly the ids the
      problem's actions carry at each role's positions, and the pair table
      holds exactly the problem's (action, conditional effect) pairs. */
  function Build(p: Problem): (h: Heuristic)
    requires ProblemOk(p)
    ensures HeuristicOk(h)
    ensures h.table.n == p.n && h.table.goal == p.goal
    ensures forall i, j :: 0 <= i < |p.actions| && 0 <= j < |p.actions[i].effects| ==>
              Pair(p.actions[i].pre + p.actions[i].effects[j].cond, p.actions[i].effects[j].effect) in h.table.pairs
    ensures forall q :: q in h.table.pairs ==>
              exists i, j :: 0 <= i < |p.actions| && 0 <= j < |p.actions[i].effects| &&
                q == Pair(p.actions[i].pre + p.actions[i].effects[j].cond, p.actions[i].effects[j].effect)
    ensures forall r :: Ids(h.roles, r) == Members(p.actions, r)
    ensures forall r :: r in h.roles <==> Members(p.actions, r) != {}
  {
    PairsContents(p.actions);
    PairsWithin(p);
    var roles := Classify(p.actions);
    ClassifyAll(p.actions);
    Heuristic(Table(p.n, Pairs(p.actions), p.goal), roles)
  }

  /** The problem's pairs mention only its facts. */
  lemma {:induction false} PairsWithin(p: Problem)
    requires ProblemOk(p)
    ensures TableOk(Table(p.n, Pairs(p.actions), p.goal))
  {
    PairsContents(p.actions);
    var pairs := Pairs(p.actions);
    forall i | 0 <= i < |pairs| ensures pairs[i].pre <= AllLits(p.n) && pairs[i].eff <= AllLits(p.n) {
      assert pairs[i] in pairs;
      var ai, j :| 0 <= ai < |p.actions| && 0 <= j < |p.actions[ai].effects| &&
                   pairs[i] == Pair(p.actions[ai].pre + p.actions[ai].effects[j].cond, p.actions[ai].effects[j].effect);
    }
  }

  /** The classifier's result, for every role at once. */
  lemma {:induction false} ClassifyAll(actions: seq<Action>)
    requires forall i :: 0 <= i < |actions| ==> ParamsOk(actions[i])
    ensures MappingOk(Classify(actions))
    ensures forall r :: Ids(Classify(actions), r) == Members(actions, r)
    ensures forall r :: r in Classify(actions) <==> Members(actions, r) != {}
  {
    forall r ensures Ids(Classify(actions), r) == Members(actions, r) && (r in Classify(actions) <==> Members(actions, r) != {}) {
      ClassifyContents(actions, r);
    }
  }

  // ---- Estimates ----

  /** An estimate: a finite SUM value, or Double.MAX_VALUE. */
  datatype Est = Fin(value: nat) | Inf

  /** `a < b` on estimates (MAX_VALUE < MAX_VALUE is false). */
  predicate Less(a: Est, b: Est) {
    a.Fin? && (b.Inf? || a.value < b.value)
  }

  /** `a <= b` on estimates. */
  predicate AtMost(a: Est, b: Est) {
    b.Inf? || (a.Fin? && a.value <= b.value)
  }

  function Min(a: nat, b: nat): nat {
    if a <= b then a else b
  }

  // ---- The consecutive-move gate ----

  /** The action was performed by `agent` (parameter 0). */
  predicate By(a: Action, agent: int) {
    |a.params| >= 1 && a.params[0] == agent
  }

  /** The name is move_agent or move_agent_and_carrier, ignoring case. */
  predicate IsMoveAction(a: Action) {
    KindOf(a.name).Some? && IsMove(KindOf(a.name).value)
  }

  /** Every action on the parent chain has an agent parameter to read. */
  predicate AgentsOk(n: Node)
    decreases n
  {
    && (n.action.Some? ==> |n.action.value.params| >= 1)
    && (n.parent.Some? ==> AgentsOk(n.parent.value))
  }

  /** The ancestor walk of tooMuchMoves (MyHeuristic.java lines 614-627): climbing from m, the
      first node whose action is by `agent` decides; reaching a node without
      an action, or no node at all, means false. */
  function PriorMove(agent: int, m: Option<Node>): bool
    requires m.Some? ==> AgentsOk(m.value)
    decreases m
  {
    match m
    case None => false
    case Some(x) =>
      match x.action
      case None => false
      case Some(a) => if a.params[0] == agent then IsMoveAction(a) else PriorMove(agent, x.parent)
  }

  /** tooMuchMoves (MyHeuristic.java lines 609-634). */
  function TooMuchMoves(n: Node): bool
    requires AgentsOk(n)
  {
    match n.action
    case None => false
    case Some(a) => IsMoveAction(a) && PriorMove(a.params[0], n.parent)
  }

  /** In a plan: some action is by `agent`, and the latest such action is a move. */
  predicate LatestByIsMove(plan: seq<Action>, agent: int) {
    exists i :: 0 <= i < |plan| && By(plan[i], agent) && IsMoveAction(plan[i]) &&
      forall j :: i < j < |plan| ==> !By(plan[j], agent)
  }

  /** The plan-level reading of the gate: the last action is a move and the
      latest earlier action by the same agent is a move too. */
  predicate MoveAfterMove(plan: seq<Action>) {
    && |plan| > 0
    && var last := plan[|plan| - 1];
       && |last.params| >= 1
       && IsMoveAction(last)
       && LatestByIsMove(plan[..|plan| - 1], last.params[0])
  }

  /** Appending an action by the agent decides the latest action by it. */
  lemma {:induction false} LatestSnocBy(init: seq<Action>, a: Action, agent: int)
    requires By(a, agent)
    ensures LatestByIsMove(init + [a], agent) <==> IsMoveAction(a)
  {
    var plan := init + [a];
    assert plan[|init|] == a;
    if LatestByIsMove(plan, agent) {
      var i :| 0 <= i < |plan| && By(plan[i], agent) && IsMoveAction(plan[i]) &&
               forall j :: i < j < |plan| ==> !By(plan[j], agent);
      assert i == |init|;
    }
  }

  /** Appending an action by another agent changes nothing. */
  lemma {:induction false} LatestSnocOther(init: seq<Action>, a: Action, agent: int)
    requires !By(a, agent)
    ensures LatestByIsMove(init + [a], agent) <==> LatestByIsMove(init, agent)
  {
    var plan := init + [a];
    if LatestByIsMove(init, agent) {
      var i :| 0 <= i < |init| && By(init[i], agent) && IsMoveAction(init[i]) &&
               forall j :: i < j < |init| ==> !By(init[j], agent);
      assert plan[i] == init[i];
      forall j | i < j < |plan| ensures !By(plan[j], agent) {
        if j < |init| { assert plan[j] == init[j]; }
      }
    }
    if LatestByIsMove(plan, agent) {
      var i :| 0 <= i < |plan| && By(plan[i], agent) && IsMoveAction(plan[i]) &&
               forall j :: i < j < |plan| ==> !By(plan[j], agent);
      assert i < |init| && init[i] == plan[i];
      forall j | i < j < |init| ensures !By(init[j], agent) {
        assert plan[j] == init[j];
      }
    }
  }

  lemma {:induction false} PriorMoveIff(agent: int, m: Node)
    requires ChainOk(m) && AgentsOk(m)
    ensures PriorMove(agent, Some(m)) <==> LatestByIsMove(ExtractPlan(m), agent)
    decreases m
  {
    match m.action
    case None =>
    case Some(a) =>
      var prev := m.parent.value;
      assert ExtractPlan(m) == ExtractPlan(prev) + [a];
      if By(a, agent) {
        LatestSnocBy(ExtractPlan(prev), a, agent);
      } else {
        PriorMoveIff(agent, prev);
        LatestSnocOther(ExtractPlan(prev), a, agent);
      }
  }

  /** The walk over parent links decides exactly the plan-level reading over
      the node's extracted plan. */
  lemma {:induction false} TooMuchMovesIff(n: Node)
    requires ChainOk(n) && AgentsOk(n)
    ensures TooMuchMoves(n) <==> MoveAfterMove(ExtractPlan(n))
  {
    if n.action.Some? {
      var a := n.action.value;
      var plan := ExtractPlan(n);
      assert plan == ExtractPlan(n.parent.value) + [a];
      assert plan[..|plan| - 1] == ExtractPlan(n.parent.value);
      PriorMoveIff(a.params[0], n.parent.value);
    }
  }

  // ---- estimate ----

  /** What estimate reads of a node: the aggregate columns it sums and the
      agent parameter of every action on the parent chain. */
  predicate NodeOk(n: Node) {
    HasColumn(n.agentFacts, 2) && HasColumn(n.carrierFacts, 1) && AgentsOk(n)
  }

  /** The first feasibility gate (MyHeuristic.java lines 581-586): within the first b steps
      every step must have loaded a box. */
  predicate LoadGateFails(n: Node, b: nat)
    requires NodeOk(n)
  {
    n.depth <= b && LoadedBoxes(n) != n.depth
  }

  /** The second feasibility gate (MyHeuristic.java lines 590-596): after b + m steps exactly m
      must have been moves. */
  predicate MoveGateFails(n: Node, b: nat, m: nat)
    requires NodeOk(n)
  {
    n.depth == b + m && Moves(n) != m
  }

  /** estimate (MyHeuristic.java lines 567-607): Inf when the relaxed expansion leaves a goal
      literal without a level, or when a gate fails; otherwise the SUM value.
      The role lookups fault, as null dereferences, only once they are
      reached: boxes and box places after the reachability check, agents and
      carriers after the first gate. */
  function Estimate(h: Heuristic, n: Node): (r: Result<Est, Fault>)
    requires HeuristicOk(h) && NodeOk(n)
    ensures var g := Relaxed(h.table, n.state);
            !(h.table.goal <= g.levels.Keys) ==> r == Ok(Inf)
    ensures r.Err? ==> r.error.NullRole? && r.error.role in {Box, BoxPlace, Agent, Carrier} &&
                       r.error.role !in h.roles
    ensures Box !in h.roles && h.table.goal <= Relaxed(h.table, n.state).levels.Keys ==>
              r == Err(NullRole(Box))
    ensures r.Ok? && r.value.Fin? ==>
              var g := Relaxed(h.table, n.state);
              var b := Min(|Ids(h.roles, Box)|, |Ids(h.roles, BoxPlace)|);
              var m := Min(|Ids(h.roles, Agent)|, |Ids(h.roles, Carrier)|);
              && h.table.goal <= g.levels.Keys
              && !LoadGateFails(n, b)
              && !MoveGateFails(n, b, m)
              && !TooMuchMoves(n)
              && r.value.value == SumFrom(h.table.goal, g.levels, 0, h.table.n)
    ensures r.Ok? && r.value.Fin? ==> (r.value.value == 0 <==> Satisfies(n.state, h.table.goal))
    ensures Box in h.roles && BoxPlace !in h.roles &&
            h.table.goal <= Relaxed(h.table, n.state).levels.Keys ==>
              r == Err(NullRole(BoxPlace))
    ensures Box in h.roles && BoxPlace in h.roles &&
            h.table.goal <= Relaxed(h.table, n.state).levels.Keys ==>
              var b := Min(|Ids(h.roles, Box)|, |Ids(h.roles, BoxPlace)|);
              && (LoadGateFails(n, b) ==> r == Ok(Inf))
              && (!LoadGateFails(n, b) && Agent !in h.roles ==> r == Err(NullRole(Agent)))
              && (!LoadGateFails(n, b) && Agent in h.roles && Carrier !in h.roles ==>
                    r == Err(NullRole(Carrier)))
    ensures Box in h.roles && BoxPlace in h.roles && Agent in h.roles && Carrier in h.roles &&
            h.table.goal <= Relaxed(h.table, n.state).levels.Keys ==>
              var b := Min(|Ids(h.roles, Box)|, |Ids(h.roles, BoxPlace)|);
              var m := Min(|Ids(h.roles, Agent)|, |Ids(h.roles, Carrier)|);
              && r.Ok?
              && (r.value.Fin? <==> !LoadGateFails(n, b) && !MoveGateFails(n, b, m) && !TooMuchMoves(n))
  {
    var g := Relaxed(h.table, n.state);
    GoalReachedIff(h.table, n.state, g);
    if g.goalCounter != |h.table.goal| then Ok(Inf)
    else
      var boxes :- NumOf(h.roles, Box);
      var places :- NumOf(h.roles, BoxPlace);
      var b := Min(boxes, places);
      if LoadGateFails(n, b) then Ok(Inf)
      else
        var agents :- NumOf(h.roles, Agent);
        var carriers :- NumOf(h.roles, Carrier);
        var m := Min(agents, carriers);
        if MoveGateFails(n, b, m) then Ok(Inf)
        else if TooMuchMoves(n) then Ok(Inf)
        else
          SumZeroIffGoalHolds(h.table, n.state, g);
          Ok(Fin(SumFrom(h.table.goal, g.levels, 0, h.table.n)))
  }

  /** Inf from reachability is safe: when the expansion leaves a goal literal
      without a level, no sequence of the problem's actions reaches the goal
      from the node's state. */
  lemma {:induction false} UnreachableMeansNoPlan(p: Problem, n: Node, plan: seq<Action>)
    requires ProblemOk(p) && NodeOk(n)
    requires forall i :: 0 <= i < |plan| ==> plan[i] in p.actions
    requires !(p.goal <= Relaxed(Build(p).table, n.state).levels.Keys)
    ensures Estimate(Build(p), n) == Ok(Inf)
    ensures Run(n.state, plan).None? || !Satisfies(Run(n.state, plan).value, p.goal)
  {
    var h := Build(p);
    PairsContents(p.actions);
    assert h.table.pairs == Pairs(p.actions);
    GoalReachedIff(h.table, n.state, Relaxed(h.table, n.state));
    UnreachableSound(p.actions, h.table, n.state, plan);
  }
}
