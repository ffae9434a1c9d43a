/** Search nodes (classical_planning/src/Node.java): a state plus the parent
    link, cost, depth and producing action, and three aggregates that each child
    derives from copies of its parent's: per-agent action counters, per-carrier
    box loads and the box -> content map. */
module SearchNode {
  import opened Results
  import opened Planning
  import opened Schemas

  /** One matrix row: column 0 is an object id, the others are counters. */
  type Row = seq<int>

  /** Nodes are immutable values, so the defensive copies the code makes when a
      child reads its parent's aggregates are the values themselves. */
  datatype Node = Node(
    state: State,
    parent: Option<Node>,
    cost: nat,
    action: Option<Action>,
    depth: nat,
    agentFacts: seq<Row>,
    carrierFacts: seq<Row>,
    boxFacts: map<int, int>)

  /** The change a kind of action makes to its carrier's load. */
  function LoadDelta(k: Kind): int {
    match k
    case Fill => 1
    case UnloadEmpty => -1
    case _ => 0
  }

  /** Every row has an id, and rows whose id is `id` have column `col`. */
  predicate RowsFit(rows: seq<Row>, id: int, col: nat) {
    forall i :: 0 <= i < |rows| ==> |rows[i]| >= 1 && (rows[i][0] == id ==> col < |rows[i]|)
  }

  /** Adds `delta` to column `col` of every row whose id is `id`. */
  function AddToRows(rows: seq<Row>, id: int, col: nat, delta: int): (r: seq<Row>)
    requires RowsFit(rows, id, col)
    ensures |r| == |rows|
    ensures forall i :: 0 <= i < |rows| ==> |r[i]| == |rows[i]|
    ensures forall i, j :: 0 <= i < |rows| && 0 <= j < |rows[i]| ==>
              r[i][j] == if rows[i][0] == id && j == col then rows[i][j] + delta else rows[i][j]
    decreases |rows|
  {
    if rows == [] then []
    else
      var init := rows[..|rows| - 1];
      var last := rows[|rows| - 1];
      AddToRows(init, id, col, delta) + [if last[0] == id then last[col := last[col] + delta] else last]
  }

  /** The box -> content map after an action of kind k with the given parameters:
      filling records box -> content, delivering forgets the box only while it
      still maps to the delivered content, anything else leaves the map alone. */
  function UpdateBoxes(m: map<int, int>, k: Kind, params: seq<int>): (r: map<int, int>)
    requires |params| >= MinParams(k)
    ensures k == Fill ==>
              && r.Keys == m.Keys + {params[2]}
              && r[params[2]] == params[4]
              && forall b :: b in m && b != params[2] ==> r[b] == m[b]
    ensures k == Deliver && params[2] in m && m[params[2]] == params[3] ==>
              && r.Keys == m.Keys - {params[2]}
              && forall b :: b in r ==> r[b] == m[b]
    ensures k == Deliver && !(params[2] in m && m[params[2]] == params[3]) ==> r == m
    ensures k != Fill && k != Deliver ==> r == m
  {
    match k
    case Fill => m[params[2] := params[4]]
    case Deliver =>
      if params[2] in m && m[params[2]] == params[3] then m - {params[2]} else m
    case _ => m
  }

  /** What the constructor needs of an action and the matrices it updates. */
  predicate Fits(a: Action, agentFacts: seq<Row>, carrierFacts: seq<Row>) {
    && Recognised(a.name, a.params)
    && RowsFit(agentFacts, a.params[0], Column(KindOf(a.name).value))
    && RowsFit(carrierFacts, a.params[1], 1)
  }

  /** The Node constructor. A root (no action) stores its arguments unchanged;
      otherwise the acting agent's row (id = parameter 0) gains one action of the
      action's kind, the carrier's row (id = parameter 1) changes its load, and
      the box map is updated. */
  function MakeNode(state: State, parent: Option<Node>, cost: nat, action: Option<Action>, depth: nat,
                    agentFacts: seq<Row>, carrierFacts: seq<Row>, boxFacts: map<int, int>): (r: Node)
    requires action.Some? ==> Fits(action.value, agentFacts, carrierFacts)
    ensures r.state == state && r.parent == parent && r.cost == cost && r.action == action && r.depth == depth
    ensures action.None? ==> r.agentFacts == agentFacts && r.carrierFacts == carrierFacts && r.boxFacts == boxFacts
  {
    match action
    case None => Node(state, parent, cost, action, depth, agentFacts, carrierFacts, boxFacts)
    case Some(a) =>
      var k := KindOf(a.name).value;
      Node(state, parent, cost, action, depth,
           AddToRows(agentFacts, a.params[0], Column(k), 1),
           AddToRows(carrierFacts, a.params[1], 1, LoadDelta(k)),
           UpdateBoxes(boxFacts, k, a.params))
  }

  /** The child the search builds by applying `a` to `n` (MyAlgorithm.java:235-248):
      triggered effects applied to a copy of the parent's state, cost and depth
      one more, parent link to `n`, aggregates derived from the parent's. */
  function Child(n: Node, a: Action): (c: Node)
    requires Fits(a, n.agentFacts, n.carrierFacts)
    ensures c.parent == Some(n) && c.action == Some(a)
    ensures c.cost == n.cost + 1 && c.depth == n.depth + 1
    ensures c.state == Successor(n.state, a)
  {
    MakeNode(Successor(n.state, a), Some(n), n.cost + 1, Some(a), n.depth + 1,
             n.agentFacts, n.carrierFacts, n.boxFacts)
  }

  /** Unfolds the definition only: the child's matrices are the constructor's
      update calls applied to the parent's. */
  lemma {:induction false} ChildUpdates(n: Node, a: Action)
    requires Fits(a, n.agentFacts, n.carrierFacts)
    ensures Child(n, a).agentFacts == AddToRows(n.agentFacts, a.params[0], Column(KindOf(a.name).value), 1)
    ensures Child(n, a).carrierFacts == AddToRows(n.carrierFacts, a.params[1], 1, LoadDelta(KindOf(a.name).value))
  {
  }

  /** Cell by cell, a child's agent matrix is its parent's with one more action
      of the acting kind in the acting agent's row (id = parameter 0), its
      carrier matrix is its parent's with the kind's load change in the acting
      carrier's row (id = parameter 1), and its box map is the parent's updated
      by the action. */
  lemma {:induction false} ChildMatrices(n: Node, a: Action)
    requires Fits(a, n.agentFacts, n.carrierFacts)
    ensures var c := Child(n, a);
            && |c.agentFacts| == |n.agentFacts|
            && forall i :: 0 <= i < |n.agentFacts| ==> |c.agentFacts[i]| == |n.agentFacts[i]|
    ensures var c := Child(n, a);
            var k := KindOf(a.name).value;
            forall i, j :: 0 <= i < |n.agentFacts| && 0 <= j < |n.agentFacts[i]| ==>
              c.agentFacts[i][j] ==
                n.agentFacts[i][j] + (if n.agentFacts[i][0] == a.params[0] && j == Column(k) then 1 else 0)
    ensures var c := Child(n, a);
            && |c.carrierFacts| == |n.carrierFacts|
            && forall i :: 0 <= i < |n.carrierFacts| ==> |c.carrierFacts[i]| == |n.carrierFacts[i]|
    ensures var c := Child(n, a);
            var k := KindOf(a.name).value;
            forall i, j :: 0 <= i < |n.carrierFacts| && 0 <= j < |n.carrierFacts[i]| ==>
              c.carrierFacts[i][j] ==
                n.carrierFacts[i][j] + (if n.carrierFacts[i][0] == a.params[1] && j == 1 then LoadDelta(k) else 0)
    ensures Child(n, a).boxFacts == UpdateBoxes(n.boxFacts, KindOf(a.name).value, a.params)
  {
    ChildUpdates(n, a);
  }

  // ---- Aggregate getters ----

  /** Every row has column j. */
  predicate HasColumn(rows: seq<Row>, j: nat) {
    forall i :: 0 <= i < |rows| ==> j < |rows[i]|
  }

  function ColumnSum(rows: seq<Row>, j: nat): int
    requires HasColumn(rows, j)
    decreases |rows|
  {
    if rows == [] then 0 else ColumnSum(rows[..|rows| - 1], j) + rows[|rows| - 1][j]
  }

  /** The number of rows whose id is `id`. */
  function CountId(rows: seq<Row>, id: int): nat
    requires forall i :: 0 <= i < |rows| ==> |rows[i]| >= 1
    decreases |rows|
  {
    if rows == [] then 0 else CountId(rows[..|rows| - 1], id) + if rows[|rows| - 1][0] == id then 1 else 0
  }

  /** Adding delta to one column of the rows with a given id changes that
      column's sum by delta per such row and leaves every other column's sum. */
  lemma {:induction false} ColumnSumAddToRows(rows: seq<Row>, id: int, col: nat, delta: int, j: nat)
    requires RowsFit(rows, id, col) && HasColumn(rows, j)
    ensures HasColumn(AddToRows(rows, id, col, delta), j)
    ensures ColumnSum(AddToRows(rows, id, col, delta), j) ==
              ColumnSum(rows, j) + if j == col then delta * CountId(rows, id) else 0
  {
    ColumnSumAddToRowsPerRow(rows, id, col, delta, j);
    PerRowTotal(rows, id, delta);
  }

  /** delta summed over the rows whose id is `id`. */
  function PerRow(rows: seq<Row>, id: int, delta: int): int
    requires forall i :: 0 <= i < |rows| ==> |rows[i]| >= 1
    decreases |rows|
  {
    if rows == [] then 0 else PerRow(rows[..|rows| - 1], id, delta) + if rows[|rows| - 1][0] == id then delta else 0
  }

  lemma {:induction false} PerRowTotal(rows: seq<Row>, id: int, delta: int)
    requires forall i :: 0 <= i < |rows| ==> |rows[i]| >= 1
    ensures PerRow(rows, id, delta) == delta * CountId(rows, id)
    decreases |rows|
  {
    if rows != [] {
      var init := rows[..|rows| - 1];
      PerRowTotal(init, id, delta);
      var c := CountId(init, id);
      if rows[|rows| - 1][0] == id {
        assert delta * (c + 1) == delta * c + delta;
      }
    }
  }

  lemma {:induction false} ColumnSumAddToRowsPerRow(rows: seq<Row>, id: int, col: nat, delta: int, j: nat)
    requires RowsFit(rows, id, col) && HasColumn(rows, j)
    ensures HasColumn(AddToRows(rows, id, col, delta), j)
    ensures ColumnSum(AddToRows(rows, id, col, delta), j) ==
              ColumnSum(rows, j) + if j == col then PerRow(rows, id, delta) else 0
    decreases |rows|
  {
    var r := AddToRows(rows, id, col, delta);
    if rows != [] {
      var init := rows[..|rows| - 1];
      ColumnSumAddToRowsPerRow(init, id, col, delta, j);
      assert AddToRows(init, id, col, delta) == r[..|r| - 1];
    }
  }

  /** getNumLoadedBoxes: the boxes on all carriers. */
  function LoadedBoxes(n: Node): int
    requires HasColumn(n.carrierFacts, 1)
  {
    ColumnSum(n.carrierFacts, 1)
  }

  /** getTotalNumberOfMoveActions: move_agent plus move_agent_and_carrier actions. */
  function Moves(n: Node): int
    requires HasColumn(n.agentFacts, 2)
  {
    ColumnSum(n.agentFacts, Column(MoveAgent)) + ColumnSum(n.agentFacts, Column(MoveAgentAndCarrier))
  }

  /** getTotalNumberOfFillActions. */
  function Fills(n: Node): int
    requires HasColumn(n.agentFacts, 3)
  {
    ColumnSum(n.agentFacts, Column(Fill))
  }

  /** getTotalNumberOfDeliverActions. */
  function Delivers(n: Node): int
    requires HasColumn(n.agentFacts, 4)
  {
    ColumnSum(n.agentFacts, Column(Deliver))
  }

  /** Aggregates of a child: each counter sum moves by one per agent row with
      the acting agent's id when the action is of that kind, and the load moves
      by the kind's delta per carrier row with the acting carrier's id. */
  lemma {:induction false} ChildAggregates(n: Node, a: Action)
    requires Fits(a, n.agentFacts, n.carrierFacts)
    requires HasColumn(n.agentFacts, 4) && HasColumn(n.carrierFacts, 1)
    ensures var c := Child(n, a);
            var k := KindOf(a.name).value;
            var agents := CountId(n.agentFacts, a.params[0]);
            && HasColumn(c.agentFacts, 4) && HasColumn(c.carrierFacts, 1)
            && Moves(c) == Moves(n) + (if IsMove(k) then agents else 0)
            && Fills(c) == Fills(n) + (if k == Fill then agents else 0)
            && Delivers(c) == Delivers(n) + (if k == Deliver then agents else 0)
            && LoadedBoxes(c) == LoadedBoxes(n) + LoadDelta(k) * CountId(n.carrierFacts, a.params[1])
  {
    ChildUpdates(n, a);
    var k := KindOf(a.name).value;
    CounterSums(n.agentFacts, a.params[0], k);
    ColumnSumAddToRows(n.carrierFacts, a.params[1], 1, LoadDelta(k), 1);
  }

  /** One more action of kind k by the agent with the given id moves the k
      counter sum by the number of rows with that id and no other sum. */
  lemma {:induction false} CounterSums(rows: seq<Row>, id: int, k: Kind)
    requires RowsFit(rows, id, Column(k)) && HasColumn(rows, 4)
    ensures HasColumn(AddToRows(rows, id, Column(k), 1), 4)
    ensures ColumnSum(AddToRows(rows, id, Column(k), 1), 1) + ColumnSum(AddToRows(rows, id, Column(k), 1), 2) ==
              ColumnSum(rows, 1) + ColumnSum(rows, 2) + if IsMove(k) then CountId(rows, id) else 0
    ensures ColumnSum(AddToRows(rows, id, Column(k), 1), 3) ==
              ColumnSum(rows, 3) + if k == Fill then CountId(rows, id) else 0
    ensures ColumnSum(AddToRows(rows, id, Column(k), 1), 4) ==
              ColumnSum(rows, 4) + if k == Deliver then CountId(rows, id) else 0
  {
    ColumnSumAddToRows(rows, id, Column(k), 1, 1);
    ColumnSumAddToRows(rows, id, Column(k), 1, 2);
    ColumnSumAddToRows(rows, id, Column(k), 1, 3);
    ColumnSumAddToRows(rows, id, Column(k), 1, 4);
    assert 1 * CountId(rows, id) == CountId(rows, id);
  }

  // ---- Parent chain ----

  /** Every node with an action has a parent (the code dereferences it). */
  predicate ChainOk(n: Node)
    decreases n
  {
    n.action.Some? ==> n.parent.Some? && ChainOk(n.parent.value)
  }

  /** extractPlan: the actions on the parent chain, root first, up to the first
      node without an action. */
  function ExtractPlan(n: Node): seq<Action>
    requires ChainOk(n)
    decreases n
  {
    match n.action
    case None => []
    case Some(a) => ExtractPlan(n.parent.value) + [a]
  }
}
