/** The root node My_ASTAR builds and the nodes its expansions reach from it
    (classical_planning/src/MyAlgorithm.java:131-147, 229-248 and 297-310):
    which plan a node stands for, and what its aggregates count along it. */
module SearchPath {
  import opened Results
  import opened Planning
  import opened Schemas
  import opened OrderedSets
  import opened Classifier
  import opened SearchNode
  import opened Heuristic

  /** Rows [id, 0, ..., 0] of the given width, one per id, in order. */
  function ZeroRows(ids: seq<int>, width: nat): (rows: seq<Row>)
    requires width >= 1
    ensures |rows| == |ids|
    ensures forall i :: 0 <= i < |ids| ==> |rows[i]| == width && rows[i][0] == ids[i]
    ensures forall i, j :: 0 <= i < |ids| && 1 <= j < width ==> rows[i][j] == 0
  {
    seq(|ids|, i requires 0 <= i < |ids| => [ids[i]] + seq(width - 1, _ => 0))
  }

  /** The root (MyAlgorithm.java lines 131-147): one agent row [id, 0, 0, 0, 0, 0] per agent and
      one carrier row [id, 0] per carrier, the i-th row holding the i-th
      smallest id; an empty box map; no parent, no action, cost and depth 0.
      The agent count is looked up first. */
  function Root(h: Heuristic, init: State): (r: Result<Node, Fault>)
    requires MappingOk(h.roles)
    ensures Agent !in h.roles ==> r == Err(NullRole(Agent))
    ensures Agent in h.roles && Carrier !in h.roles ==> r == Err(NullRole(Carrier))
    ensures Agent in h.roles && Carrier in h.roles ==> r.Ok?
    ensures r.Ok? ==>
              var n := r.value;
              && n.state == init && n.parent == None && n.action == None
              && n.cost == 0 && n.depth == 0 && n.boxFacts == map[]
              && |n.agentFacts| == |Ids(h.roles, Agent)|
              && |n.carrierFacts| == |Ids(h.roles, Carrier)|
              && (forall i :: 0 <= i < |n.agentFacts| ==>
                    |n.agentFacts[i]| == 6 && AtIndex(h.roles, Agent, i) == Ok(n.agentFacts[i][0]))
              && (forall i :: 0 <= i < |n.carrierFacts| ==>
                    |n.carrierFacts[i]| == 2 && AtIndex(h.roles, Carrier, i) == Ok(n.carrierFacts[i][0]))
              && (forall i, j :: 0 <= i < |n.agentFacts| && 1 <= j < 6 ==> n.agentFacts[i][j] == 0)
              && (forall i :: 0 <= i < |n.carrierFacts| ==> n.carrierFacts[i][1] == 0)
  {
    var agents :- NumOf(h.roles, Agent);
    var carriers :- NumOf(h.roles, Carrier);
    SortedSize(h.roles[Agent]);
    SortedSize(h.roles[Carrier]);
    Ok(MakeNode(init, None, 0, None, 0, ZeroRows(h.roles[Agent], 6), ZeroRows(h.roles[Carrier], 2), map[]))
  }

  // ---- Reached nodes ----

  /** The id column of a matrix. */
  function Ids0(rows: seq<Row>): (ids: seq<int>)
    requires forall i :: 0 <= i < |rows| ==> |rows[i]| >= 1
    ensures |ids| == |rows|
    ensures forall i :: 0 <= i < |rows| ==> ids[i] == rows[i][0]
  {
    seq(|rows|, i requires 0 <= i < |rows| => rows[i][0])
  }

  /** n is the child of q by a problem action applicable in q's state
      (MyAlgorithm.java lines 229-248). */
  predicate ChildOf(p: Problem, q: Node, n: Node) {
    && n.action.Some?
    && n.action.value in p.actions
    && Applicable(q.state, n.action.value)
    && Fits(n.action.value, q.agentFacts, q.carrierFacts)
    && n == Child(q, n.action.value)
  }

  /** n is the root or was built from a reached node by ChildOf. */
  predicate Reached(p: Problem, root: Node, n: Node)
    decreases n
  {
    match n.parent
    case None => n == root
    case Some(q) => ChildOf(p, q, n) && Reached(p, root, q)
  }

  /** The root's shape: no parent or action, cost and depth 0, six agent
      columns and two carrier columns, ids ascending. */
  predicate RootShape(root: Node) {
    && root.parent.None? && root.action.None? && root.cost == 0 && root.depth == 0
    && (forall i :: 0 <= i < |root.agentFacts| ==> |root.agentFacts[i]| == 6)
    && (forall i :: 0 <= i < |root.carrierFacts| ==> |root.carrierFacts[i]| == 2)
    && Sorted(Ids0(root.agentFacts))
    && Sorted(Ids0(root.carrierFacts))
  }

  /** Shape every reached node inherits: a well-formed parent chain, the
      root's matrix widths and id columns, and cost = depth = plan length. */
  lemma {:induction false} ReachedShape(p: Problem, root: Node, n: Node)
    requires ProblemOk(p) && RootShape(root) && Reached(p, root, n)
    ensures ChainOk(n) && AgentsOk(n)
    ensures |n.agentFacts| == |root.agentFacts| && |n.carrierFacts| == |root.carrierFacts|
    ensures forall i :: 0 <= i < |n.agentFacts| ==> |n.agentFacts[i]| == 6
    ensures forall i :: 0 <= i < |n.carrierFacts| ==> |n.carrierFacts[i]| == 2
    ensures Ids0(n.agentFacts) == Ids0(root.agentFacts)
    ensures Ids0(n.carrierFacts) == Ids0(root.carrierFacts)
    ensures n.cost == n.depth == |ExtractPlan(n)|
  {
    ReachedChain(p, root, n);
    ReachedRows(p, root, n);
  }

  /** The parent chain of a reached node is well formed, every action on it
      names an agent, and cost = depth = plan length. */
  lemma {:induction false} ReachedChain(p: Problem, root: Node, n: Node)
    requires ProblemOk(p) && RootShape(root) && Reached(p, root, n)
    ensures ChainOk(n) && AgentsOk(n)
    ensures n.cost == n.depth == |ExtractPlan(n)|
    decreases n
  {
    match n.parent
    case None =>
    case Some(q) =>
      ReachedChain(p, root, q);
      var i :| 0 <= i < |p.actions| && p.actions[i] == n.action.value;
  }

  /** A reached node keeps the root's matrix widths and id columns. */
  lemma {:induction false} ReachedRows(p: Problem, root: Node, n: Node)
    requires RootShape(root) && Reached(p, root, n)
    ensures |n.agentFacts| == |root.agentFacts| && |n.carrierFacts| == |root.carrierFacts|
    ensures forall i :: 0 <= i < |n.agentFacts| ==> |n.agentFacts[i]| == 6
    ensures forall i :: 0 <= i < |n.carrierFacts| ==> |n.carrierFacts[i]| == 2
    ensures Ids0(n.agentFacts) == Ids0(root.agentFacts)
    ensures Ids0(n.carrierFacts) == Ids0(root.carrierFacts)
    decreases n
  {
    match n.parent
    case None =>
    case Some(q) =>
      ReachedRows(p, root, q);
      ChildRows(q, n.action.value);
  }

  /** A child has its parent's matrix widths and id columns. */
  lemma {:induction false} ChildRows(q: Node, a: Action)
    requires Fits(a, q.agentFacts, q.carrierFacts)
    requires forall i :: 0 <= i < |q.agentFacts| ==> |q.agentFacts[i]| == 6
    requires forall i :: 0 <= i < |q.carrierFacts| ==> |q.carrierFacts[i]| == 2
    ensures |Child(q, a).agentFacts| == |q.agentFacts| && |Child(q, a).carrierFacts| == |q.carrierFacts|
    ensures forall i :: 0 <= i < |q.agentFacts| ==> |Child(q, a).agentFacts[i]| == 6
    ensures forall i :: 0 <= i < |q.carrierFacts| ==> |Child(q, a).carrierFacts[i]| == 2
    ensures Ids0(Child(q, a).agentFacts) == Ids0(q.agentFacts)
    ensures Ids0(Child(q, a).carrierFacts) == Ids0(q.carrierFacts)
  {
    SearchNode.ChildUpdates(q, a);
    var k := KindOf(a.name).value;
    AddToRowsIds(q.agentFacts, a.params[0], Column(k), 1);
    AddToRowsIds(q.carrierFacts, a.params[1], 1, LoadDelta(k));
  }

  /** Updating a counter column keeps a matrix's shape and id column. */
  lemma {:induction false} AddToRowsIds(rows: seq<Row>, id: int, col: nat, delta: int)
    requires RowsFit(rows, id, col) && col >= 1
    ensures |AddToRows(rows, id, col, delta)| == |rows|
    ensures forall i :: 0 <= i < |rows| ==> |AddToRows(rows, id, col, delta)[i]| == |rows[i]|
    ensures Ids0(AddToRows(rows, id, col, delta)) == Ids0(rows)
  {
    SameIds(rows, AddToRows(rows, id, col, delta));
  }

  /** Matrices of the same shape that agree on column 0 have the same ids. */
  lemma {:induction false} SameIds(rows: seq<Row>, rows': seq<Row>)
    requires |rows'| == |rows|
    requires forall i :: 0 <= i < |rows| ==> |rows[i]| >= 1 && |rows'[i]| == |rows[i]|
    requires forall i, j :: 0 <= i < |rows| && j == 0 ==> rows'[i][j] == rows[i][j]
    ensures Ids0(rows') == Ids0(rows)
  {
    assert forall i :: 0 <= i < |rows| ==> Ids0(rows')[i] == rows'[i][0] == rows[i][0] == Ids0(rows)[i];
  }

  /** The plan extracted from a reached node uses problem actions and, run from
      the root's state, ends in the node's state. */
  lemma {:induction false} ReachedRuns(p: Problem, root: Node, n: Node)
    requires ProblemOk(p) && RootShape(root) && Reached(p, root, n)
    ensures ChainOk(n)
    ensures forall i :: 0 <= i < |ExtractPlan(n)| ==> ExtractPlan(n)[i] in p.actions
    ensures Run(root.state, ExtractPlan(n)) == Some(n.state)
    decreases n
  {
    ReachedShape(p, root, n);
    match n.parent
    case None =>
    case Some(q) =>
      ReachedRuns(p, root, q);
      var a := n.action.value;
      RunSnoc(root.state, ExtractPlan(q), a);
  }

  /** A reached node is a valid input to estimate. */
  lemma {:induction false} ReachedNodeOk(p: Problem, root: Node, n: Node)
    requires ProblemOk(p) && RootShape(root) && Reached(p, root, n)
    ensures NodeOk(n) && ChainOk(n)
    ensures HasColumn(n.agentFacts, 5) && HasColumn(n.carrierFacts, 1)
  {
    ReachedChain(p, root, n);
    ReachedRows(p, root, n);
    assert forall i :: 0 <= i < |n.agentFacts| ==> 5 < |n.agentFacts[i]|;
  }

  /** A child of a reached node by a problem action is reached. */
  lemma {:induction false} ChildReached(p: Problem, root: Node, q: Node, a: Action)
    requires ProblemOk(p) && RootShape(root) && Reached(p, root, q)
    requires a in p.actions && Applicable(q.state, a)
    ensures Fits(a, q.agentFacts, q.carrierFacts)
    ensures Reached(p, root, Child(q, a))
  {
    ChildFits(p, root, q, a);
    var c := Child(q, a);
    assert c.parent == Some(q) && c.action == Some(a);
    assert ChildOf(p, q, c);
  }

  /** The matrices of a reached node fit every problem action. */
  lemma {:induction false} ChildFits(p: Problem, root: Node, q: Node, a: Action)
    requires ProblemOk(p) && RootShape(root) && Reached(p, root, q)
    requires a in p.actions
    ensures Fits(a, q.agentFacts, q.carrierFacts)
  {
    ReachedShape(p, root, q);
    var i :| 0 <= i < |p.actions| && p.actions[i] == a;
    assert Recognised(a.name, a.params);
  }

  // ---- What the aggregates count ----

  /** The number of actions of kind k in a plan. */
  function Count(plan: seq<Action>, k: Kind): nat
    decreases |plan|
  {
    if plan == [] then 0
    else Count(plan[..|plan| - 1], k) + if KindOf(plan[|plan| - 1].name) == Some(k) then 1 else 0
  }

  /** With ascending ids, a row id occurs once and any other value never. */
  lemma {:induction false} CountIdSorted(rows: seq<Row>, x: int)
    requires forall i :: 0 <= i < |rows| ==> |rows[i]| >= 1
    requires Sorted(Ids0(rows))
    ensures CountId(rows, x) == if x in Ids0(rows) then 1 else 0
    decreases |rows|
  {
    if rows != [] {
      var init := rows[..|rows| - 1];
      assert Ids0(init) == Ids0(rows)[..|rows| - 1];
      CountIdSorted(init, x);
      assert Ids0(rows) == Ids0(init) + [rows[|rows| - 1][0]];
      if rows[|rows| - 1][0] == x {
        assert x !in Ids0(init) by {
          forall i | 0 <= i < |init| ensures Ids0(init)[i] != x {
            assert Ids0(rows)[i] < Ids0(rows)[|rows| - 1];
          }
        }
      }
    }
  }

  /** Zero columns sum to zero. */
  lemma {:induction false} ColumnSumZero(rows: seq<Row>, j: nat)
    requires HasColumn(rows, j)
    requires forall i :: 0 <= i < |rows| ==> rows[i][j] == 0
    ensures ColumnSum(rows, j) == 0
    decreases |rows|
  {
    if rows != [] {
      ColumnSumZero(rows[..|rows| - 1], j);
    }
  }

  /** What a root must provide for the counts: zero counters, and a row for
      the agent of every problem action and for the carrier of every action
      that changes a load. */
  predicate RootFor(p: Problem, root: Node) {
    && RootShape(root)
    && (forall i, j :: 0 <= i < |root.agentFacts| && 1 <= j < 6 ==> root.agentFacts[i][j] == 0)
    && (forall i :: 0 <= i < |root.carrierFacts| ==> root.carrierFacts[i][1] == 0)
    && (forall i :: 0 <= i < |p.actions| && |p.actions[i].params| >= 1 ==>
          p.actions[i].params[0] in Ids0(root.agentFacts))
    && (forall i :: 0 <= i < |p.actions| && |p.actions[i].params| >= 2 &&
                    KindOf(p.actions[i].name) in {Some(Fill), Some(UnloadEmpty)} ==>
          p.actions[i].params[1] in Ids0(root.carrierFacts))
  }

  /** Parameter 0 of every recognised action is an agent, parameter 1 of every
      action but move_agent a carrier. */
  lemma {:induction false} ActionRoles(p: Problem, i: nat)
    requires ProblemOk(p) && i < |p.actions|
    ensures p.actions[i].params[0] in Members(p.actions, Agent)
    ensures KindOf(p.actions[i].name).value != MoveAgent ==> p.actions[i].params[1] in Members(p.actions, Carrier)
  {
    var a := p.actions[i];
    var k := KindOf(a.name).value;
    AgentAndCarrierPositions(k);
    PosIdsMembers(a.params, Positions(k), Agent);
    forall x | x == a.params[0] ensures x in Members(p.actions, Agent) {
      assert 0 <= i < |p.actions| && x in ActionIds(p.actions[i], Agent);
    }
    if k != MoveAgent {
      PosIdsMembers(a.params, Positions(k), Carrier);
      forall x | x == a.params[1] ensures x in Members(p.actions, Carrier) {
        assert 0 <= i < |p.actions| && x in ActionIds(p.actions[i], Carrier);
      }
    }
  }

  /** The root's id columns are the role sets in ascending order. */
  lemma {:induction false} RootIds(h: Heuristic, init: State, root: Node)
    requires MappingOk(h.roles) && Root(h, init) == Ok(root)
    ensures Agent in h.roles && Carrier in h.roles
    ensures RootShape(root)
    ensures Ids0(root.agentFacts) == h.roles[Agent]
    ensures Ids0(root.carrierFacts) == h.roles[Carrier]
  {
  }

  /** The root the search builds for a problem provides what the counts need. */
  lemma {:induction false} RootIsRootFor(p: Problem, root: Node)
    requires ProblemOk(p) && Root(Build(p), p.init) == Ok(root)
    ensures RootFor(p, root)
  {
    var h := Build(p);
    RootForRoles(p, h, root);
  }

  lemma {:induction false} RootForRoles(p: Problem, h: Heuristic, root: Node)
    requires ProblemOk(p) && MappingOk(h.roles) && Root(h, p.init) == Ok(root)
    requires Ids(h.roles, Agent) == Members(p.actions, Agent)
    requires Ids(h.roles, Carrier) == Members(p.actions, Carrier)
    ensures RootFor(p, root)
  {
    RootIds(h, p.init, root);
    var agents := Ids0(root.agentFacts);
    var carriers := Ids0(root.carrierFacts);
    forall i | 0 <= i < |p.actions|
      ensures p.actions[i].params[0] in agents
      ensures KindOf(p.actions[i].name) in {Some(Fill), Some(UnloadEmpty)} ==> p.actions[i].params[1] in carriers
    {
      ActionInRows(p, agents, carriers, i);
    }
  }

  /** The ids of action i sit in id columns listing the role members. */
  lemma {:induction false} ActionInRows(p: Problem, agents: seq<int>, carriers: seq<int>, i: nat)
    requires ProblemOk(p) && i < |p.actions|
    requires Elems(agents) == Members(p.actions, Agent) && Elems(carriers) == Members(p.actions, Carrier)
    ensures p.actions[i].params[0] in agents
    ensures KindOf(p.actions[i].name) in {Some(Fill), Some(UnloadEmpty)} ==> p.actions[i].params[1] in carriers
  {
    ActionRoles(p, i);
    assert p.actions[i].params[0] in Elems(agents);
    if KindOf(p.actions[i].name) in {Some(Fill), Some(UnloadEmpty)} {
      assert p.actions[i].params[1] in Elems(carriers);
    }
  }

  /** The aggregate getters count the actions of the node's plan: moves,
      fills and deliveries by kind, loaded boxes as fills minus empty unloads. */
  predicate Counted(n: Node) {
    ChainOk(n) && CountedBy(n, ExtractPlan(n))
  }

  /** The aggregate getters count the actions of the given plan. */
  predicate CountedBy(n: Node, plan: seq<Action>) {
    && HasColumn(n.agentFacts, 4) && HasColumn(n.carrierFacts, 1)
    && Moves(n) == Count(plan, MoveAgent) + Count(plan, MoveAgentAndCarrier)
    && Fills(n) == Count(plan, Fill)
    && Delivers(n) == Count(plan, Deliver)
    && LoadedBoxes(n) == Count(plan, Fill) - Count(plan, UnloadEmpty)
  }

  lemma {:induction false} CountSnoc(init: seq<Action>, a: Action, k: Kind, k': Kind)
    requires KindOf(a.name) == Some(k)
    ensures Count(init + [a], k') == Count(init, k') + if k == k' then 1 else 0
  {
    assert (init + [a])[..|init|] == init;
  }

  lemma {:induction false} RootCounted(p: Problem, root: Node)
    requires RootFor(p, root)
    ensures Counted(root)
  {
    ColumnSumZero(root.agentFacts, 1);
    ColumnSumZero(root.agentFacts, 2);
    ColumnSumZero(root.agentFacts, 3);
    ColumnSumZero(root.agentFacts, 4);
    ColumnSumZero(root.carrierFacts, 1);
  }

  /** The acting agent has exactly one row in a reached node's agent matrix. */
  lemma {:induction false} AgentRowOnce(p: Problem, root: Node, q: Node, a: Action)
    requires ProblemOk(p) && RootFor(p, root) && Reached(p, root, q) && a in p.actions
    ensures forall i :: 0 <= i < |q.agentFacts| ==> |q.agentFacts[i]| >= 1
    ensures |a.params| >= 1 && CountId(q.agentFacts, a.params[0]) == 1
  {
    ReachedShape(p, root, q);
    var i :| 0 <= i < |p.actions| && p.actions[i] == a;
    assert Recognised(a.name, a.params);
    assert a.params[0] in Ids0(q.agentFacts);
    CountIdSorted(q.agentFacts, a.params[0]);
  }

  /** The acting carrier's load rows change by exactly the kind's delta. */
  lemma {:induction false} CarrierRowOnce(p: Problem, root: Node, q: Node, a: Action)
    requires ProblemOk(p) && RootFor(p, root) && Reached(p, root, q) && a in p.actions
    ensures forall i :: 0 <= i < |q.carrierFacts| ==> |q.carrierFacts[i]| >= 1
    ensures |a.params| >= 2 && KindOf(a.name).Some?
    ensures KindOf(a.name).value in {Fill, UnloadEmpty} ==> CountId(q.carrierFacts, a.params[1]) == 1
  {
    ReachedShape(p, root, q);
    var i :| 0 <= i < |p.actions| && p.actions[i] == a;
    assert Recognised(a.name, a.params);
    var k := KindOf(a.name).value;
    if k == Fill || k == UnloadEmpty {
      assert a.params[1] in Ids0(q.carrierFacts);
      CountIdSorted(q.carrierFacts, a.params[1]);
    }
  }

  /** One more action adds one to its kind's count, through the one row of
      its agent and (for loads) the one row of its carrier. */
  lemma {:induction false} CountedStep(q: Node, a: Action)
    requires Counted(q) && Fits(a, q.agentFacts, q.carrierFacts)
    requires CountId(q.agentFacts, a.params[0]) == 1
    requires KindOf(a.name).value in {Fill, UnloadEmpty} ==> CountId(q.carrierFacts, a.params[1]) == 1
    ensures Counted(Child(q, a))
  {
    PlanStep(q, a);
    CountedByStep(q, a, ExtractPlan(q));
  }

  lemma {:induction false} CountedByStep(q: Node, a: Action, P: seq<Action>)
    requires CountedBy(q, P) && Fits(a, q.agentFacts, q.carrierFacts)
    requires CountId(q.agentFacts, a.params[0]) == 1
    requires KindOf(a.name).value in {Fill, UnloadEmpty} ==> CountId(q.carrierFacts, a.params[1]) == 1
    ensures CountedBy(Child(q, a), P + [a])
  {
    StepA(q, a);
    StepB(q, a);
    var k := KindOf(a.name).value;
    StepCounts(P, a, k);
    assert LoadDelta(k) == (if k == Fill then 1 else 0) - (if k == UnloadEmpty then 1 else 0);
  }

  /** Appending an action of kind k adds one to k's count and nothing to the
      others. */
  lemma {:induction false} StepCounts(P: seq<Action>, a: Action, k: Kind)
    requires KindOf(a.name) == Some(k)
    ensures Count(P + [a], MoveAgent) + Count(P + [a], MoveAgentAndCarrier) ==
              Count(P, MoveAgent) + Count(P, MoveAgentAndCarrier) + if IsMove(k) then 1 else 0
    ensures Count(P + [a], Fill) == Count(P, Fill) + if k == Fill then 1 else 0
    ensures Count(P + [a], Deliver) == Count(P, Deliver) + if k == Deliver then 1 else 0
    ensures Count(P + [a], UnloadEmpty) == Count(P, UnloadEmpty) + if k == UnloadEmpty then 1 else 0
  {
    CountSnoc(P, a, k, MoveAgent);
    CountSnoc(P, a, k, MoveAgentAndCarrier);
    CountSnoc(P, a, k, Fill);
    CountSnoc(P, a, k, Deliver);
    CountSnoc(P, a, k, UnloadEmpty);
  }

  /** The child's plan is its parent's plus the action. */
  lemma {:induction false} PlanStep(q: Node, a: Action)
    requires ChainOk(q) && Fits(a, q.agentFacts, q.carrierFacts)
    ensures ChainOk(Child(q, a)) && ExtractPlan(Child(q, a)) == ExtractPlan(q) + [a]
  {
    var c := Child(q, a);
    assert c.parent == Some(q) && c.action == Some(a);
  }
  /** The counter sums move by one in the action's kind. */
  lemma {:induction false} StepA(q: Node, a: Action)
    requires HasColumn(q.agentFacts, 4) && HasColumn(q.carrierFacts, 1) && Fits(a, q.agentFacts, q.carrierFacts)
    requires CountId(q.agentFacts, a.params[0]) == 1
    ensures HasColumn(Child(q, a).agentFacts, 4)
    ensures Moves(Child(q, a)) == Moves(q) + if IsMove(KindOf(a.name).value) then 1 else 0
    ensures Fills(Child(q, a)) == Fills(q) + if KindOf(a.name).value == Fill then 1 else 0
    ensures Delivers(Child(q, a)) == Delivers(q) + if KindOf(a.name).value == Deliver then 1 else 0
  {
    ChildAggregates(q, a);
  }
  /** The load sum moves by the kind's delta. */
  lemma {:induction false} StepB(q: Node, a: Action)
    requires HasColumn(q.agentFacts, 4) && HasColumn(q.carrierFacts, 1) && Fits(a, q.agentFacts, q.carrierFacts)
    requires KindOf(a.name).value in {Fill, UnloadEmpty} ==> CountId(q.carrierFacts, a.params[1]) == 1
    ensures HasColumn(Child(q, a).carrierFacts, 1)
    ensures LoadedBoxes(Child(q, a)) == LoadedBoxes(q) + LoadDelta(KindOf(a.name).value)
  {
    ChildAggregates(q, a);
    var k := KindOf(a.name).value;
    if k !in {Fill, UnloadEmpty} {
      assert LoadDelta(k) == 0;
    }
  }

  lemma {:induction false} ChildCounted(p: Problem, root: Node, q: Node, a: Action)
    requires ProblemOk(p) && RootFor(p, root) && Reached(p, root, q) && Counted(q)
    requires a in p.actions && Applicable(q.state, a)
    ensures Fits(a, q.agentFacts, q.carrierFacts)
    ensures Counted(Child(q, a))
  {
    ChildFits(p, root, q, a);
    AgentRowOnce(p, root, q, a);
    CarrierRowOnce(p, root, q, a);
    CountedStep(q, a);
  }

  /** Along a reached node's plan, the aggregate getters count its actions. */
  lemma {:induction false} ReachedCounts(p: Problem, root: Node, n: Node)
    requires ProblemOk(p) && RootFor(p, root) && Reached(p, root, n)
    ensures Counted(n)
    decreases n
  {
    match n.parent
    case None =>
      RootCounted(p, root);
    case Some(q) =>
      ReachedCounts(p, root, q);
      ChildCounted(p, root, q, n.action.value);
  }

  /** Every action of a problem plan has one of the five kinds. */
  lemma {:induction false} CountsCoverPlan(plan: seq<Action>)
    requires forall i :: 0 <= i < |plan| ==> KindOf(plan[i].name).Some?
    ensures |plan| == Count(plan, MoveAgent) + Count(plan, MoveAgentAndCarrier) + Count(plan, Fill) +
                      Count(plan, Deliver) + Count(plan, UnloadEmpty)
    decreases |plan|
  {
    if plan != [] {
      CountsCoverPlan(plan[..|plan| - 1]);
      CountsStep(plan);
    }
  }

  /** An action of one of the five kinds adds one to exactly one count. */
  lemma {:induction false} CountsStep(plan: seq<Action>)
    requires plan != [] && KindOf(plan[|plan| - 1].name).Some?
    ensures Count(plan, MoveAgent) + Count(plan, MoveAgentAndCarrier) + Count(plan, Fill) +
            Count(plan, Deliver) + Count(plan, UnloadEmpty) ==
            Count(plan[..|plan| - 1], MoveAgent) + Count(plan[..|plan| - 1], MoveAgentAndCarrier) +
            Count(plan[..|plan| - 1], Fill) + Count(plan[..|plan| - 1], Deliver) +
            Count(plan[..|plan| - 1], UnloadEmpty) + 1
  {
    var k := KindOf(plan[|plan| - 1].name).value;
    CountLast(plan, k, MoveAgent);
    CountLast(plan, k, MoveAgentAndCarrier);
    CountLast(plan, k, Fill);
    CountLast(plan, k, Deliver);
    CountLast(plan, k, UnloadEmpty);
  }

  lemma {:induction false} CountLast(plan: seq<Action>, k: Kind, k': Kind)
    requires plan != [] && KindOf(plan[|plan| - 1].name) == Some(k)
    ensures Count(plan, k') == Count(plan[..|plan| - 1], k') + if k == k' then 1 else 0
  {
  }

  /** A kind's count reaches the plan's length exactly when every action has it. */
  lemma {:induction false} CountAll(plan: seq<Action>, k: Kind)
    ensures Count(plan, k) <= |plan|
    ensures Count(plan, k) == |plan| <==> forall i :: 0 <= i < |plan| ==> KindOf(plan[i].name) == Some(k)
  {
    CountAtMost(plan, k);
    if Count(plan, k) == |plan| {
      CountFullOnly(plan, k);
    }
    if forall i :: 0 <= i < |plan| ==> KindOf(plan[i].name) == Some(k) {
      CountOnlyFull(plan, k);
    }
  }

  lemma {:induction false} CountAtMost(plan: seq<Action>, k: Kind)
    ensures Count(plan, k) <= |plan|
    decreases |plan|
  {
    if plan != [] {
      CountAtMost(plan[..|plan| - 1], k);
    }
  }

  lemma {:induction false} CountFullOnly(plan: seq<Action>, k: Kind)
    requires Count(plan, k) == |plan|
    ensures forall i :: 0 <= i < |plan| ==> KindOf(plan[i].name) == Some(k)
    decreases |plan|
  {
    if plan != [] {
      var init := plan[..|plan| - 1];
      CountFullLast(plan, k);
      CountFullOnly(init, k);
      AllOfKindSnoc(init, plan[|plan| - 1], k);
      assert plan == init + [plan[|plan| - 1]];
    }
  }

  /** A plan is all of kind k when its prefix is and its last action is. */
  lemma {:induction false} AllOfKindSnoc(init: seq<Action>, last: Action, k: Kind)
    requires forall i :: 0 <= i < |init| ==> KindOf(init[i].name) == Some(k)
    requires KindOf(last.name) == Some(k)
    ensures forall i :: 0 <= i < |init| + 1 ==> KindOf((init + [last])[i].name) == Some(k)
  {
    forall i | 0 <= i < |init| + 1 ensures KindOf((init + [last])[i].name) == Some(k) {
      if i < |init| {
        assert (init + [last])[i] == init[i];
      }
    }
  }

  /** A full count is full on the prefix and counts the last action. */
  lemma {:induction false} CountFullLast(plan: seq<Action>, k: Kind)
    requires plan != [] && Count(plan, k) == |plan|
    ensures Count(plan[..|plan| - 1], k) == |plan| - 1
    ensures KindOf(plan[|plan| - 1].name) == Some(k)
  {
    CountAtMost(plan[..|plan| - 1], k);
  }

  lemma {:induction false} CountOnlyFull(plan: seq<Action>, k: Kind)
    requires forall i :: 0 <= i < |plan| ==> KindOf(plan[i].name) == Some(k)
    ensures Count(plan, k) == |plan|
    decreases |plan|
  {
    if plan != [] {
      var init := plan[..|plan| - 1];
      forall i | 0 <= i < |init| ensures KindOf(init[i].name) == Some(k) {
        assert plan[i] == init[i];
      }
      CountOnlyFull(init, k);
    }
  }

  /** The plans of reached nodes consist of recognised actions. */
  lemma {:induction false} ReachedKinds(p: Problem, root: Node, n: Node)
    requires ProblemOk(p) && RootShape(root) && Reached(p, root, n)
    ensures ChainOk(n)
    ensures forall i :: 0 <= i < |ExtractPlan(n)| ==> KindOf(ExtractPlan(n)[i].name).Some?
  {
    ReachedRuns(p, root, n);
    forall i | 0 <= i < |ExtractPlan(n)| ensures KindOf(ExtractPlan(n)[i].name).Some? {
      var j :| 0 <= j < |p.actions| && p.actions[j] == ExtractPlan(n)[i];
    }
  }

  /** The first gate's test, read on the plan: the loaded boxes equal the depth
      exactly when every action so far was fill_box_and_load_it_on_carrier. */
  lemma {:induction false} LoadGateMeaning(p: Problem, root: Node, n: Node)
    requires ProblemOk(p) && RootFor(p, root) && Reached(p, root, n)
    ensures ChainOk(n) && HasColumn(n.carrierFacts, 1)
    ensures LoadedBoxes(n) == n.depth <==>
              forall i :: 0 <= i < |ExtractPlan(n)| ==> KindOf(ExtractPlan(n)[i].name) == Some(Fill)
  {
    ReachedShape(p, root, n);
    ReachedCounts(p, root, n);
    ReachedKinds(p, root, n);
    var plan := ExtractPlan(n);
    assert LoadedBoxes(n) == Count(plan, Fill) - Count(plan, UnloadEmpty);
    FillsOnly(plan);
  }

  /** Fills minus empty unloads reach the plan's length only in an all-fill plan. */
  lemma {:induction false} FillsOnly(plan: seq<Action>)
    requires forall i :: 0 <= i < |plan| ==> KindOf(plan[i].name).Some?
    ensures Count(plan, Fill) - Count(plan, UnloadEmpty) == |plan| <==>
              forall i :: 0 <= i < |plan| ==> KindOf(plan[i].name) == Some(Fill)
  {
    CountsCoverPlan(plan);
    CountAll(plan, Fill);
    CountAll(plan, UnloadEmpty);
    if Count(plan, Fill) - Count(plan, UnloadEmpty) == |plan| {
      assert Count(plan, Fill) == |plan|;
    }
  }
}
