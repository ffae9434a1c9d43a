/** My_ASTAR (classical_planning/src/MyAlgorithm.java:103-288): a best-first
    loop over a frontier ordered by a structural key, which prunes the frontier
    whenever the heuristic improves and admits only unexplored children with a
    finite estimate. */
module Search {
  import opened Results
  import opened Planning
  import opened Schemas
  import opened Classifier
  import opened SearchNode
  import opened Heuristic
  import opened SearchPath

  // ---- The timeout ----

  /** Java `int` arithmetic: the value congruent to x modulo 2^32 in
      [-2^31, 2^31). */
  function Wrap32(x: int): (r: int)
    ensures -0x8000_0000 <= r < 0x8000_0000
    ensures (x - r) % 0x1_0000_0000 == 0
    ensures -0x8000_0000 <= x < 0x8000_0000 ==> r == x
  {
    var m := x % 0x1_0000_0000;
    if m < 0x8000_0000 then m else m - 0x1_0000_0000
  }

  predicate IsInt32(x: int) {
    -0x8000_0000 <= x < 0x8000_0000
  }

  /** `getTimeout() * 1000` (MyAlgorithm.java line 156), an `int` product. */
  function TimeoutMillis(seconds: int): (r: int)
    requires IsInt32(seconds)
    ensures IsInt32(r)
    ensures (seconds * 1000 - r) % 0x1_0000_0000 == 0
    ensures -2147483 <= seconds <= 2147483 ==> r == seconds * 1000
  {
    Wrap32(seconds * 1000)
  }

  // ---- The frontier order ----

  /** The comparator's key (MyAlgorithm.java lines 124-129 and 204-208): the queue returns the
      node with the smallest moves - fills - delivers + cost. */
  function Key(n: Node): int
    requires HasColumn(n.agentFacts, 4)
  {
    Moves(n) - Fills(n) - Delivers(n) + n.cost
  }

  /** On a reached node the key counts its plan: twice the moves plus the
      unloads of empty boxes, since cost is the plan's length. */
  lemma {:induction false} KeyCounts(p: Problem, root: Node, n: Node)
    requires ProblemOk(p) && RootFor(p, root) && Reached(p, root, n)
    ensures ChainOk(n) && HasColumn(n.agentFacts, 4)
    ensures var plan := ExtractPlan(n);
            Key(n) == 2 * (Count(plan, MoveAgent) + Count(plan, MoveAgentAndCarrier)) + Count(plan, UnloadEmpty)
  {
    ReachedCounts(p, root, n);
    ReachedShape(p, root, n);
    ReachedKinds(p, root, n);
    CountsCoverPlan(ExtractPlan(n));
  }

  /** Every frontier node has the columns the key reads. */
  predicate Keyed(f: seq<Node>) {
    forall j :: 0 <= j < |f| ==> HasColumn(f[j].agentFacts, 4)
  }

  /** `frontier.poll()` (MyAlgorithm.java line 166): the position of a node of least key; among
      equal keys the first (the queue's own tie-breaking is not modelled). */
  method PollIndex(f: seq<Node>) returns (i: nat)
    requires f != [] && Keyed(f)
    ensures i < |f|
    ensures forall j :: 0 <= j < |f| ==> Key(f[i]) <= Key(f[j])
    ensures forall j :: 0 <= j < i ==> Key(f[i]) < Key(f[j])
  {
    i := 0;
    var j := 1;
    while j < |f|
      invariant i < j <= |f|
      invariant forall k :: 0 <= k < j ==> Key(f[i]) <= Key(f[k])
      invariant forall k :: 0 <= k < i ==> Key(f[i]) < Key(f[k])
    {
      if Key(f[j]) < Key(f[i]) {
        i := j;
      }
      j := j + 1;
    }
  }

  // ---- Pruning ----

  /** Every node can be estimated. */
  predicate AllOk(f: seq<Node>) {
    forall x :: x in f ==> NodeOk(x)
  }

  /** The node's estimate is at most the best one (MyAlgorithm.java line 197). */
  predicate Keeps(h: Heuristic, n: Node, best: Est)
    requires HeuristicOk(h) && NodeOk(n)
  {
    Estimate(h, n).Ok? && AtMost(Estimate(h, n).value, best)
  }

  /** The estimates of the frontier's nodes, in frontier order; the first
      estimate that faults stops the search (MyAlgorithm.java line 197). */
  function Scores(h: Heuristic, f: seq<Node>): (r: Result<seq<Est>, Fault>)
    requires HeuristicOk(h) && AllOk(f)
    ensures r.Ok? ==> |r.value| == |f|
  {
    if f == [] then Ok([])
    else
      var e :- Estimate(h, f[0]);
      var rest :- Scores(h, f[1..]);
      Ok([e] + rest)
  }

  /** A successful scoring gives each node its own estimate. */
  lemma {:induction false} ScoresValues(h: Heuristic, f: seq<Node>)
    requires HeuristicOk(h) && AllOk(f) && Scores(h, f).Ok?
    ensures forall j :: 0 <= j < |f| ==> Estimate(h, f[j]) == Ok(Scores(h, f).value[j])
  {
    if f != [] {
      var rest := Scores(h, f[1..]).value;
      ScoresValues(h, f[1..]);
      assert Scores(h, f).value == [Estimate(h, f[0]).value] + rest;
      forall j | 0 <= j < |f| ensures Estimate(h, f[j]) == Ok(Scores(h, f).value[j]) {
        if j > 0 {
          assert f[j] == f[1..][j - 1];
        }
      }
    }
  }

  /** A failed scoring passes on the fault of some node's estimate. */
  lemma {:induction false} ScoresFault(h: Heuristic, f: seq<Node>)
    requires HeuristicOk(h) && AllOk(f) && Scores(h, f).Err?
    ensures exists j :: 0 <= j < |f| && Estimate(h, f[j]) == Err(Scores(h, f).error)
  {
    if Estimate(h, f[0]).Ok? {
      ScoresFault(h, f[1..]);
      var j :| 0 <= j < |f| - 1 && Estimate(h, f[1..][j]) == Err(Scores(h, f[1..]).error);
      assert f[1..][j] == f[j + 1];
    }
  }

  /** The nodes whose estimate (given position by position) is at most best,
      in their order. */
  function Filter(f: seq<Node>, es: seq<Est>, best: Est): (r: seq<Node>)
    requires |es| == |f|
    ensures forall x :: x in r ==> x in f
  {
    if f == [] then []
    else (if AtMost(es[0], best) then [f[0]] else []) + Filter(f[1..], es[1..], best)
  }

  /** A node whose every occurrence carries estimate e survives the filter
      as often as it occurs when e is at most best, and not at all otherwise. */
  lemma {:induction false} FilterCounts(f: seq<Node>, es: seq<Est>, best: Est, x: Node, e: Est)
    requires |es| == |f|
    requires forall j :: 0 <= j < |f| && f[j] == x ==> es[j] == e
    ensures multiset(Filter(f, es, best))[x] == if AtMost(e, best) then multiset(f)[x] else 0
  {
    if f != [] {
      assert f == [f[0]] + f[1..];
      assert forall j :: 1 <= j < |f| ==> f[j] == f[1..][j - 1] && es[j] == es[1..][j - 1];
      FilterCounts(f[1..], es[1..], best, x, e);
    }
  }

  /** The rebuilt frontier (MyAlgorithm.java lines 195-217): the nodes whose estimate is at most
      the new best; empty when none is (the `clear` branch). */
  function Prune(h: Heuristic, f: seq<Node>, best: Est): (r: Result<seq<Node>, Fault>)
    requires HeuristicOk(h) && AllOk(f)
    ensures r.Err? ==> r.error.NullRole? && r.error.role !in h.roles
    ensures r.Ok? ==> forall x :: x in r.value ==> x in f
  {
    if Scores(h, f).Err? then
      ScoresFault(h, f);
      Err(Scores(h, f).error)
    else
      Ok(Filter(f, Scores(h, f).value, best))
  }

  /** Pruning faults exactly when some frontier node's estimate does. */
  lemma {:induction false} PruneOkIff(h: Heuristic, f: seq<Node>, best: Est)
    requires HeuristicOk(h) && AllOk(f)
    ensures Prune(h, f, best).Ok? <==> forall j :: 0 <= j < |f| ==> Estimate(h, f[j]).Ok?
  {
    if Scores(h, f).Ok? {
      ScoresValues(h, f);
    } else {
      ScoresFault(h, f);
      var j :| 0 <= j < |f| && Estimate(h, f[j]) == Err(Scores(h, f).error);
    }
  }

  /** Pruning keeps each node with an estimate at most the best as often as
      the frontier held it, and drops every other node entirely. */
  lemma {:induction false} PruneCounts(h: Heuristic, f: seq<Node>, best: Est, x: Node)
    requires HeuristicOk(h) && AllOk(f) && NodeOk(x) && Prune(h, f, best).Ok?
    ensures multiset(Prune(h, f, best).value)[x] == if Keeps(h, x, best) then multiset(f)[x] else 0
  {
    var es := Scores(h, f).value;
    ScoresValues(h, f);
    var ex := Estimate(h, x);
    var e := if ex.Ok? then ex.value else Inf;
    FilterCounts(f, es, best, x, e);
    if x in f {
      var j :| 0 <= j < |f| && f[j] == x;
    }
  }

  // ---- Expansion ----

  /** The child of q by a is generated and insertable (MyAlgorithm.java lines 232-256): a is
      applicable, the child's state is not explored and its estimate is
      finite. */
  predicate Insertable(h: Heuristic, q: Node, a: Action, explored: set<State>)
    requires HeuristicOk(h)
  {
    && Applicable(q.state, a)
    && Fits(a, q.agentFacts, q.carrierFacts)
    && NodeOk(Child(q, a))
    && Child(q, a).state !in explored
    && Estimate(h, Child(q, a)).Ok?
    && Estimate(h, Child(q, a)).value.Fin?
  }

  /** The child of a reached node by an applicable problem action is reached
      and can be estimated. */
  lemma {:induction false} ChildOk(p: Problem, root: Node, q: Node, a: Action)
    requires ProblemOk(p) && RootShape(root) && Reached(p, root, q)
    requires a in p.actions && Applicable(q.state, a)
    ensures Fits(a, q.agentFacts, q.carrierFacts)
    ensures Reached(p, root, Child(q, a)) && NodeOk(Child(q, a))
  {
    ChildReached(p, root, q, a);
    ReachedNodeOk(p, root, Child(q, a));
  }

  /** What one action contributes to the expansion (MyAlgorithm.java lines 229-256): its
      child when insertable, nothing otherwise. The estimate is computed only
      when the action is applicable and the child's state unexplored. */
  function Offspring(p: Problem, h: Heuristic, root: Node, q: Node, explored: set<State>, a: Action)
    : (r: Result<seq<Node>, Fault>)
    requires ProblemOk(p) && HeuristicOk(h) && RootShape(root) && Reached(p, root, q) && a in p.actions
    ensures r.Err? ==> r.error.NullRole? && r.error.role !in h.roles
  {
    if !Applicable(q.state, a) then Ok([])
    else
      ChildOk(p, root, q, a);
      var c := Child(q, a);
      if c.state in explored then Ok([])
      else
        var e :- Estimate(h, c);
        Ok(if e.Fin? then [c] else [])
  }

  /** An action contributes exactly its insertable child. */
  lemma {:induction false} OffspringInsertable(p: Problem, h: Heuristic, root: Node, q: Node, explored: set<State>,
                                               a: Action)
    requires ProblemOk(p) && HeuristicOk(h) && RootShape(root) && Reached(p, root, q) && a in p.actions
    requires Offspring(p, h, root, q, explored, a).Ok?
    ensures Offspring(p, h, root, q, explored, a).value == if Insertable(h, q, a, explored) then [Child(q, a)] else []
  {
    if Applicable(q.state, a) {
      ChildOk(p, root, q, a);
    }
  }

  /** The children q's expansion collects (MyAlgorithm.java lines 221-258), action by action in
      the problem's order; the first fault stops the search. */
  function Successors(p: Problem, h: Heuristic, root: Node, q: Node, explored: set<State>, acts: seq<Action>)
    : (r: Result<seq<Node>, Fault>)
    requires ProblemOk(p) && HeuristicOk(h) && RootShape(root) && Reached(p, root, q)
    requires forall a :: a in acts ==> a in p.actions
    ensures r.Err? ==> r.error.NullRole? && r.error.role !in h.roles
    decreases |acts|
  {
    if acts == [] then Ok([])
    else
      var first :- Offspring(p, h, root, q, explored, acts[0]);
      var rest :- Successors(p, h, root, q, explored, acts[1..]);
      Ok(first + rest)
  }

  /** A reference for the expansion without its faults: one child for every
      action occurrence, in order, whose child is insertable. */
  function InsertableChildren(h: Heuristic, q: Node, explored: set<State>, acts: seq<Action>): (r: seq<Node>)
    requires HeuristicOk(h)
    ensures |r| <= |acts|
    decreases |acts|
  {
    if acts == [] then []
    else
      (if Insertable(h, q, acts[0], explored) then [Child(q, acts[0])] else [])
      + InsertableChildren(h, q, explored, acts[1..])
  }

  /** When collecting does not fault, it collects exactly the reference's
      children, with their multiplicities and in the same order. */
  lemma {:induction false} SuccessorsChildren(p: Problem, h: Heuristic, root: Node, q: Node, explored: set<State>,
                                              acts: seq<Action>)
    requires ProblemOk(p) && HeuristicOk(h) && RootShape(root) && Reached(p, root, q)
    requires forall a :: a in acts ==> a in p.actions
    requires Successors(p, h, root, q, explored, acts).Ok?
    ensures Successors(p, h, root, q, explored, acts).value == InsertableChildren(h, q, explored, acts)
    decreases |acts|
  {
    if acts != [] {
      OffspringInsertable(p, h, root, q, explored, acts[0]);
      SuccessorsChildren(p, h, root, q, explored, acts[1..]);
    }
  }

  /** Every collected child is the insertable child of one of the actions. */
  lemma {:induction false} SuccessorsSound(p: Problem, h: Heuristic, root: Node, q: Node, explored: set<State>,
                                           acts: seq<Action>)
    requires ProblemOk(p) && HeuristicOk(h) && RootShape(root) && Reached(p, root, q)
    requires forall a :: a in acts ==> a in p.actions
    requires Successors(p, h, root, q, explored, acts).Ok?
    ensures forall c :: c in Successors(p, h, root, q, explored, acts).value ==>
              && c.action.Some? && c.action.value in acts
              && Insertable(h, q, c.action.value, explored)
              && c == Child(q, c.action.value)
    decreases |acts|
  {
    if acts != [] {
      var first := Offspring(p, h, root, q, explored, acts[0]).value;
      var rest := Successors(p, h, root, q, explored, acts[1..]).value;
      assert Successors(p, h, root, q, explored, acts).value == first + rest;
      OffspringInsertable(p, h, root, q, explored, acts[0]);
      SuccessorsSound(p, h, root, q, explored, acts[1..]);
      forall c: Node | c in first + rest
        ensures c.action.Some? && c.action.value in acts
        ensures Insertable(h, q, c.action.value, explored) && c == Child(q, c.action.value)
      {
        if c in first {
          assert c == Child(q, acts[0]);
        } else {
          assert c in rest;
          assert c.action.value in acts[1..];
        }
      }
    }
  }

  /** Every collected child is a reached node. */
  lemma {:induction false} SuccessorsReached(p: Problem, h: Heuristic, root: Node, q: Node, explored: set<State>,
                                             acts: seq<Action>)
    requires ProblemOk(p) && HeuristicOk(h) && RootShape(root) && Reached(p, root, q)
    requires forall a :: a in acts ==> a in p.actions
    requires Successors(p, h, root, q, explored, acts).Ok?
    ensures forall c :: c in Successors(p, h, root, q, explored, acts).value ==> Reached(p, root, c)
  {
    SuccessorsSound(p, h, root, q, explored, acts);
    forall c | c in Successors(p, h, root, q, explored, acts).value ensures Reached(p, root, c) {
      ChildOk(p, root, q, c.action.value);
    }
  }

  /** Every insertable child of one of the actions is collected. */
  lemma {:induction false} SuccessorsComplete(p: Problem, h: Heuristic, root: Node, q: Node, explored: set<State>,
                                              acts: seq<Action>)
    requires ProblemOk(p) && HeuristicOk(h) && RootShape(root) && Reached(p, root, q)
    requires forall a :: a in acts ==> a in p.actions
    requires Successors(p, h, root, q, explored, acts).Ok?
    ensures forall a :: a in acts && Insertable(h, q, a, explored) ==>
              Child(q, a) in Successors(p, h, root, q, explored, acts).value
    decreases |acts|
  {
    if acts != [] {
      OffspringInsertable(p, h, root, q, explored, acts[0]);
      SuccessorsComplete(p, h, root, q, explored, acts[1..]);
      assert forall b :: b in acts ==> b == acts[0] || b in acts[1..];
    }
  }

  /** Positions 0 .. n-1: the indexes the expansion records, one per child it
      collects (MyAlgorithm.java line 255). */
  function Range(n: nat): (r: seq<nat>)
    ensures |r| == n && forall i :: 0 <= i < n ==> r[i] == i
  {
    seq(n, i => i)
  }

  /** What an expansion adds to the frontier (MyAlgorithm.java lines 265-276): every collected
      child at the root when none is insertable, a depth-dependent prefix
      deeper down, only the insertable ones otherwise. */
  function Admitted<T>(successors: seq<T>, insertable: seq<nat>, depth: nat): (r: seq<T>)
    requires forall k :: 0 <= k < |insertable| ==> insertable[k] < |successors|
    ensures forall x :: x in r ==> x in successors
    ensures |insertable| == 0 && depth > 0 && |successors| / depth == 0 ==> r == []
  {
    if |insertable| == 0 && depth == 0 then successors
    else if |insertable| == 0 && depth > 0 && |successors| / depth > 0 then
      DivAtMost(|successors|, depth);
      successors[..|successors| / depth]
    else if |insertable| > 0 then
      var r := seq(|insertable|, k requires 0 <= k < |insertable| => successors[insertable[k]]);
      assert forall k :: 0 <= k < |insertable| ==> r[k] in successors;
      r
    else []
  }

  lemma {:induction false} DivParts(a: int, d: int)
    requires a >= 0 && d > 0
    ensures a == d * (a / d) + a % d && a / d >= 0 && a % d >= 0
  {
  }

  lemma {:induction false} MulAtLeast(d: int, q: int)
    requires q >= 0 && d > 0
    ensures d * q >= q
  {
    assert d * q == q + (d - 1) * q;
  }

  /** Java's `size / depth` on non-negative operands never exceeds size. */
  lemma {:induction false} DivAtMost(a: nat, d: nat)
    requires d > 0
    ensures a / d <= a
  {
    DivParts(a, d);
    MulAtLeast(d, a / d);
  }

  /** The expansion records every collected child as insertable, so the
      frontier gains exactly the collected children, and nothing when there
      are none: the two fallback branches never add a node. */
  lemma {:induction false} AdmittedAll<T>(successors: seq<T>, depth: nat)
    ensures Admitted(successors, Range(|successors|), depth) == successors
  {
    if successors != [] {
      var r := Admitted(successors, Range(|successors|), depth);
      assert |r| == |successors|;
      forall k | 0 <= k < |r| ensures r[k] == successors[k] {
      }
    }
  }

  // ---- The loop ----

  /** How My_ASTAR ends: a plan with the explored count, no plan with the
      explored count, a fault (a null role dereferenced), or the model's
      iteration bound exhausted. */
  datatype Outcome =
    | Found(plan: seq<Action>, explored: nat)
    | NoPlan(explored: nat)
    | Failed(fault: Fault)
    | OutOfFuel

  /** What stays fixed during the search: the heuristic built for the
      problem and the root built from its initial state. */
  predicate Setting(p: Problem, h: Heuristic, root: Node) {
    && ProblemOk(p) && HeuristicOk(h) && h.table.goal == p.goal
    && RootFor(p, root) && root.state == p.init
  }

  /** Every frontier node was reached from the root. */
  predicate AllReached(p: Problem, root: Node, f: seq<Node>) {
    forall x :: x in f ==> Reached(p, root, x)
  }

  /** n certifies plan: the plan is n's parent-chain actions, as many as n's
      depth, all problem actions, and it runs from the initial state to n's
      state, where the goal holds. */
  predicate Solves(p: Problem, n: Node, plan: seq<Action>) {
    && ChainOk(n) && plan == ExtractPlan(n) && |plan| == n.depth
    && (forall i :: 0 <= i < |plan| ==> plan[i] in p.actions)
    && Run(p.init, plan) == Some(n.state)
    && Satisfies(n.state, p.goal)
  }

  /** A reached node whose estimate is 0 certifies its extracted plan
      (MyAlgorithm.java lines 180-185 and 297-310). */
  lemma {:induction false} ZeroSolves(p: Problem, h: Heuristic, root: Node, n: Node)
    requires Setting(p, h, root) && Reached(p, root, n) && NodeOk(n)
    requires Estimate(h, n) == Ok(Fin(0))
    ensures ChainOk(n) && Solves(p, n, ExtractPlan(n))
  {
    ReachedRuns(p, root, n);
    ReachedShape(p, root, n);
  }

  /** `frontier.poll()` (MyAlgorithm.java line 166): removes one node of least key. */
  method Poll(p: Problem, root: Node, f: seq<Node>) returns (current: Node, rest: seq<Node>)
    requires ProblemOk(p) && RootShape(root) && f != [] && AllReached(p, root, f)
    ensures Keyed(f) && current in f
    ensures forall j :: 0 <= j < |f| ==> Key(current) <= Key(f[j])
    ensures multiset(f) == multiset(rest) + multiset{current}
    ensures Reached(p, root, current) && NodeOk(current) && AllReached(p, root, rest)
  {
    AllKeyed(p, root, f);
    var i := PollIndex(f);
    current := f[i];
    rest := f[..i] + f[i + 1..];
    RemoveAt(f, i);
    ReachedNodeOk(p, root, current);
  }

  /** Every reached node has a key. */
  lemma {:induction false} AllKeyed(p: Problem, root: Node, f: seq<Node>)
    requires ProblemOk(p) && RootShape(root) && AllReached(p, root, f)
    ensures Keyed(f)
  {
    forall j | 0 <= j < |f| ensures HasColumn(f[j].agentFacts, 4) {
      ReachedNodeOk(p, root, f[j]);
    }
  }

  /** Removing position i leaves the other elements, each taken from f. */
  lemma {:induction false} RemoveAt<T>(f: seq<T>, i: nat)
    requires i < |f|
    ensures multiset(f) == multiset(f[..i] + f[i + 1..]) + multiset{f[i]}
    ensures forall x :: x in f[..i] + f[i + 1..] ==> x in f
  {
    assert f == f[..i] + [f[i]] + f[i + 1..];
  }

  /** MyAlgorithm.java lines 192-218: an estimate below the best becomes the best, and the
      frontier keeps only the nodes estimated at most that. */
  method Improve(p: Problem, h: Heuristic, root: Node, f: seq<Node>, best: Est, e: Est)
    returns (r: Result<seq<Node>, Fault>, best': Est)
    requires Setting(p, h, root) && AllReached(p, root, f)
    ensures AtMost(best', best) && (Less(e, best) ==> best' == e)
    ensures !Less(e, best) ==> r == Ok(f) && best' == best
    ensures Less(e, best) ==> AllOk(f) && r == Prune(h, f, e)
    ensures r.Err? ==> r.error.NullRole? && r.error.role !in h.roles
    ensures r.Ok? ==> AllReached(p, root, r.value)
  {
    if Less(e, best) {
      best' := e;
      forall x | x in f ensures NodeOk(x) {
        ReachedNodeOk(p, root, x);
      }
      r := Prune(h, f, e);
    } else {
      best' := best;
      r := Ok(f);
    }
  }

  /** MyAlgorithm.java lines 221-276: the children of the current node that enter the
      frontier. */
  method Expand(p: Problem, h: Heuristic, root: Node, current: Node, explored: set<State>)
    returns (r: Result<seq<Node>, Fault>)
    requires Setting(p, h, root) && Reached(p, root, current)
    ensures r.Err? ==> r.error.NullRole? && r.error.role !in h.roles
    ensures r.Ok? ==> AllReached(p, root, r.value)
    ensures r.Ok? ==> forall c :: c in r.value ==>
              && c.action.Some? && c.action.value in p.actions && Insertable(h, current, c.action.value, explored)
              && c == Child(current, c.action.value)
    ensures r.Ok? ==> forall a :: a in p.actions && Insertable(h, current, a, explored) ==>
              Child(current, a) in r.value
    ensures r == Successors(p, h, root, current, explored, p.actions)
    ensures r.Ok? ==> r.value == InsertableChildren(h, current, explored, p.actions)
  {
    var succ := Successors(p, h, root, current, explored, p.actions);
    if succ.Err? {
      return Err(succ.error);
    }
    SuccessorsReached(p, h, root, current, explored, p.actions);
    SuccessorsSound(p, h, root, current, explored, p.actions);
    SuccessorsComplete(p, h, root, current, explored, p.actions);
    SuccessorsChildren(p, h, root, current, explored, p.actions);
    AdmittedAll(succ.value, current.depth);
    r := Ok(Admitted(succ.value, Range(|succ.value|), current.depth));
  }

  /** The remaining frontier after the pruning step (MyAlgorithm.java lines 192-218): unchanged
      unless the estimate e improves on the best, and then only the nodes whose
      estimate is at most e. */
  predicate PrunedTo(h: Heuristic, rest: seq<Node>, best: Est, e: Est, pruned: seq<Node>)
    requires HeuristicOk(h)
  {
    if Less(e, best) then AllOk(rest) && Prune(h, rest, e) == Ok(pruned) else pruned == rest
  }

  /** `admitted` holds the insertable children of `current`, one for every
      problem action, in order, whose child is insertable (MyAlgorithm.java
      lines 221-276): each is the child of `current` by a problem action, and
      every insertable child is among them. */
  predicate AdmittedFrom(p: Problem, h: Heuristic, current: Node, explored: set<State>, admitted: seq<Node>)
    requires HeuristicOk(h)
  {
    && admitted == InsertableChildren(h, current, explored, p.actions)
    && (forall c :: c in admitted ==>
          && c.action.Some? && c.action.value in p.actions && Insertable(h, current, c.action.value, explored)
          && c == Child(current, c.action.value))
    && (forall a :: a in p.actions && Insertable(h, current, a, explored) ==> Child(current, a) in admitted)
  }

  /** Every reached node can be estimated. */
  lemma {:induction false} AllReachedOk(p: Problem, root: Node, f: seq<Node>)
    requires ProblemOk(p) && RootShape(root) && AllReached(p, root, f)
    ensures AllOk(f)
  {
    forall x | x in f ensures NodeOk(x) {
      ReachedNodeOk(p, root, x);
    }
  }

  /** The fault, if any, that ends a pass once the polled node's estimate e is
      known and not 0 (MyAlgorithm.java lines 192-258): pruning the rest of the
      frontier, done only when e improves on the best, faults first; then
      collecting the node's successors. */
  function PassFault(p: Problem, h: Heuristic, root: Node, current: Node, rest: seq<Node>, explored: set<State>,
                     best: Est, e: Est): (r: Option<Fault>)
    requires Setting(p, h, root) && Reached(p, root, current) && AllReached(p, root, rest)
    ensures r.Some? ==> r.value.NullRole? && r.value.role !in h.roles
  {
    AllReachedOk(p, root, rest);
    if Less(e, best) && Prune(h, rest, e).Err? then Some(Prune(h, rest, e).error)
    else if Successors(p, h, root, current, explored, p.actions).Err? then
      Some(Successors(p, h, root, current, explored, p.actions).error)
    else None
  }

  /** The loop's state between passes: the frontier, the explored states and
      the best estimate so far. */
  datatype Snapshot = Snapshot(frontier: seq<Node>, explored: set<State>, best: Est)

  /** What a pass did: the node it polled, the rest of the frontier, and, for a
      pass that goes on, what pruning kept of the rest and the children it
      admitted. */
  datatype Pass = Pass(current: Node, rest: seq<Node>, pruned: seq<Node>, admitted: seq<Node>)

  /** `current` is a node of f of least key. */
  predicate Least(f: seq<Node>, current: Node) {
    && Keyed(f) && current in f
    && (forall j :: 0 <= j < |f| ==> Key(current) <= Key(f[j]))
  }

  /** `current` is a node of least key in f, and `rest` holds the others. */
  predicate PopsLeast(f: seq<Node>, current: Node, rest: seq<Node>) {
    Least(f, current) && multiset(f) == multiset(rest) + multiset{current}
  }

  /** One pass of My_ASTAR's loop that goes on from s to s': it polls a node of
      least key and marks its state explored; the node's estimate is finite or
      Inf but not 0; neither pruning nor collecting the successors faults; the
      best drops to the estimate exactly when it is smaller; and the next
      frontier is the rest, pruned when the best dropped, followed by the
      node's insertable children. */
  predicate Continues(p: Problem, h: Heuristic, root: Node, s: Snapshot, q: Pass, s': Snapshot)
    requires Setting(p, h, root)
  {
    && PopsLeast(s.frontier, q.current, q.rest)
    && s'.explored == s.explored + {q.current.state}
    && Reached(p, root, q.current) && AllReached(p, root, q.rest)
    && NodeOk(q.current) && Estimate(h, q.current).Ok? && Estimate(h, q.current).value != Fin(0)
    && var e := Estimate(h, q.current).value;
       && PassFault(p, h, root, q.current, q.rest, s'.explored, s.best, e).None?
       && s'.best == (if Less(e, s.best) then e else s.best)
       && s'.frontier == q.pruned + q.admitted
       && PrunedTo(h, q.rest, s.best, e, q.pruned)
       && AdmittedFrom(p, h, q.current, s'.explored, q.admitted)
  }

  /** How a pass from s that polled `q.current` ends the search: an estimate
      fault is the outcome, an estimate of 0 returns that node's plan with the
      explored count, and any other estimate ends only in the fault that
      pruning or collecting the successors raises. */
  predicate Ends(p: Problem, h: Heuristic, root: Node, s: Snapshot, q: Pass, res: Outcome, solution: Option<Node>,
                 explored': set<State>)
    requires Setting(p, h, root)
  {
    && Reached(p, root, q.current) && AllReached(p, root, q.rest)
    && NodeOk(q.current)
    && (Estimate(h, q.current).Err? ==> res == Failed(Estimate(h, q.current).error))
    && (Estimate(h, q.current) == Ok(Fin(0)) ==>
          ChainOk(q.current) && res == Found(ExtractPlan(q.current), |explored'|) && solution == Some(q.current))
    && (Estimate(h, q.current).Ok? && Estimate(h, q.current).value != Fin(0) ==>
          var fault := PassFault(p, h, root, q.current, q.rest, explored', s.best, Estimate(h, q.current).value);
          fault.Some? && res == Failed(fault.value))
  }

  /** One pass of My_ASTAR's loop that ends the search from s: it polls a node
      of least key, marks its state explored, and ends as `Ends` says. */
  predicate Stops(p: Problem, h: Heuristic, root: Node, s: Snapshot, q: Pass, res: Outcome, solution: Option<Node>,
                  explored': set<State>)
    requires Setting(p, h, root)
  {
    && PopsLeast(s.frontier, q.current, q.rest)
    && explored' == s.explored + {q.current.state}
    && Ends(p, h, root, s, q, res, solution, explored')
  }

  /** One pass of the loop body (MyAlgorithm.java lines 166-280). */
  method Iterate(p: Problem, h: Heuristic, root: Node, frontier: seq<Node>, explored: set<State>, best: Est)
    returns (pass: Pass, stop: Option<Outcome>, solution: Option<Node>, frontier': seq<Node>,
             explored': set<State>, best': Est)
    requires Setting(p, h, root) && frontier != [] && AllReached(p, root, frontier)
    ensures PopsLeast(frontier, pass.current, pass.rest) && explored' == explored + {pass.current.state}
    ensures stop.None? ==>
              Continues(p, h, root, Snapshot(frontier, explored, best), pass, Snapshot(frontier', explored', best'))
    ensures stop.None? ==> AllReached(p, root, frontier') && AtMost(best', best)
    ensures stop.Some? ==> Ends(p, h, root, Snapshot(frontier, explored, best), pass, stop.value, solution, explored')
    ensures stop.Some? ==> stop.value.Found? || stop.value.Failed?
    ensures stop.Some? && stop.value.Failed? ==>
              stop.value.fault.NullRole? && stop.value.fault.role !in h.roles
    ensures stop.Some? && stop.value.Found? ==>
              && solution.Some? && NodeOk(solution.value) && Estimate(h, solution.value) == Ok(Fin(0))
              && Solves(p, solution.value, stop.value.plan)
              && solution.value.state in explored'
              && stop.value.explored == |explored'|
  {
    solution := None;
    frontier' := frontier;
    best' := best;
    var current, rest := Poll(p, root, frontier);
    pass := Pass(current, rest, [], []);
    explored' := explored + {current.state};
    var ec := Estimate(h, current);
    if ec.Err? {
      stop := Some(Failed(ec.error));
      return;
    }
    if ec.value == Fin(0) {
      ZeroSolves(p, h, root, current);
      solution := Some(current);
      stop := Some(Found(ExtractPlan(current), |explored'|));
      return;
    }
    var pruned, admitted;
    stop, frontier', best', pruned, admitted := Advance(p, h, root, current, rest, explored', best, ec.value);
    pass := Pass(current, rest, pruned, admitted);
  }

  /** The rest of a pass once the popped node's estimate is known and not 0
      (MyAlgorithm.java lines 192-276): prune the remaining frontier if the
      estimate improves on the best, then add the node's admitted children. */
  method Advance(p: Problem, h: Heuristic, root: Node, current: Node, rest: seq<Node>, explored: set<State>,
                 best: Est, e: Est)
    returns (stop: Option<Outcome>, frontier': seq<Node>, best': Est, pruned: seq<Node>, admitted: seq<Node>)
    requires Setting(p, h, root) && Reached(p, root, current) && AllReached(p, root, rest)
    ensures AtMost(best', best) && (Less(e, best) ==> best' == e) && (!Less(e, best) ==> best' == best)
    ensures stop.Some? <==> PassFault(p, h, root, current, rest, explored, best, e).Some?
    ensures stop.Some? ==> stop.value == Failed(PassFault(p, h, root, current, rest, explored, best, e).value)
    ensures stop.None? ==> AllReached(p, root, frontier')
    ensures stop.None? ==> frontier' == pruned + admitted
    ensures stop.None? ==> PrunedTo(h, rest, best, e, pruned) && AdmittedFrom(p, h, current, explored, admitted)
    ensures stop.Some? ==> stop.value.Failed? && stop.value.fault.NullRole? && stop.value.fault.role !in h.roles
  {
    frontier', pruned, admitted := rest, [], [];
    var kept;
    kept, best' := Improve(p, h, root, rest, best, e);
    if kept.Err? {
      stop := Some(Failed(kept.error));
      return;
    }
    pruned := kept.value;
    var children := Expand(p, h, root, current, explored);
    if children.Err? {
      stop := Some(Failed(children.error));
      return;
    }
    admitted := children.value;
    stop := None;
    frontier' := pruned + admitted;
  }

  /** The start of My_ASTAR (MyAlgorithm.java lines 110-151) as a value: the
      root built from the initial state and its estimate, the first best. A
      missing agent or carrier role faults while the root is built, before it
      is estimated. */
  function Start(p: Problem): (r: Result<(Node, Est), Fault>)
    requires ProblemOk(p)
    ensures Root(Build(p), p.init).Err? ==> r == Err(Root(Build(p), p.init).error)
    ensures r.Ok? ==>
              && Root(Build(p), p.init) == Ok(r.value.0) && NodeOk(r.value.0)
              && Estimate(Build(p), r.value.0) == Ok(r.value.1)
    ensures r.Ok? ==> Setting(p, Build(p), r.value.0) && Reached(p, r.value.0, r.value.0)
    ensures Root(Build(p), p.init).Ok? && r.Err? ==>
              && NodeOk(Root(Build(p), p.init).value)
              && Estimate(Build(p), Root(Build(p), p.init).value) == Err(r.error)
  {
    var h := Build(p);
    var root :- Root(h, p.init);
    RootIds(h, p.init, root);
    RootIsRootFor(p, root);
    ReachedNodeOk(p, root, root);
    var e :- Estimate(h, root);
    Ok((root, e))
  }

  /** MyAlgorithm.java lines 110-151: the root node and its estimate, the first best. The
      agent count is looked up first, then the carrier count, then the root
      is estimated. */
  method Begin(p: Problem, h: Heuristic) returns (r: Result<Node, Fault>, best: Est)
    requires ProblemOk(p) && h == Build(p)
    ensures r.Err? ==> r.error.NullRole? && r.error.role !in h.roles
    ensures Agent !in h.roles ==> r == Err(NullRole(Agent))
    ensures Agent in h.roles && Carrier !in h.roles ==> r == Err(NullRole(Carrier))
    ensures r.Ok? ==> Setting(p, h, r.value) && Reached(p, r.value, r.value)
    ensures r.Ok? ==> NodeOk(r.value) && Estimate(h, r.value) == Ok(best)
    ensures r.Ok? ==> Root(h, p.init) == Ok(r.value)
    ensures Root(h, p.init).Err? ==> r == Err(Root(h, p.init).error)
    ensures Root(h, p.init).Ok? ==>
              && NodeOk(Root(h, p.init).value)
              && (Estimate(h, Root(h, p.init).value).Err? ==> r == Err(Estimate(h, Root(h, p.init).value).error))
              && (Estimate(h, Root(h, p.init).value).Ok? ==>
                    r == Ok(Root(h, p.init).value) && best == Estimate(h, Root(h, p.init).value).value)
  {
    best := Inf;
    var r0 := Root(h, p.init);
    if r0.Err? {
      return r0, best;
    }
    var root := r0.value;
    RootIds(h, p.init, root);
    RootIsRootFor(p, root);
    ReachedNodeOk(p, root, root);
    var e0 := Estimate(h, root);
    if e0.Err? {
      return Err(e0.error), best;
    }
    return Ok(root), e0.value;
  }

  /** The while loop (MyAlgorithm.java lines 163-287) from a frontier holding only the root.
      `trace` records the snapshot before every pass and after the last one
      that went on, `passes` what each of those passes did, and `popped` what
      a final pass that ended the search polled. */
  method Loop(p: Problem, h: Heuristic, root: Node, best0: Est, timeout: int, fuel: nat)
    returns (res: Outcome, solution: Option<Node>, explored: set<State>, frontier: seq<Node>,
             trace: seq<Snapshot>, passes: seq<Pass>, popped: Option<Pass>)
    requires Setting(p, h, root) && Reached(p, root, root)
    ensures res.Found? ==>
              && solution.Some? && NodeOk(solution.value)
              && Estimate(h, solution.value) == Ok(Fin(0))
              && Solves(p, solution.value, res.plan)
              && solution.value.state in explored
    ensures res.Found? || res.NoPlan? ==> res.explored == |explored|
    ensures res.Failed? ==> res.fault.NullRole? && res.fault.role !in h.roles
    ensures timeout <= 0 ==> res == NoPlan(0)
    ensures 0 < timeout && 0 < fuel ==> root.state in explored
    ensures |trace| == |passes| + 1 && trace[0] == Snapshot([root], {}, best0)
    ensures forall i :: 0 <= i < |passes| ==> Continues(p, h, root, trace[i], passes[i], trace[i + 1])
    ensures |passes| <= fuel && (passes != [] ==> 0 < timeout)
    ensures popped.None? <==> res.NoPlan? || res.OutOfFuel?
    ensures popped.None? ==> trace[|passes|].frontier == frontier && trace[|passes|].explored == explored
    ensures res.NoPlan? ==> (timeout <= 0 && passes == []) || frontier == []
    ensures res.OutOfFuel? ==> |passes| == fuel && 0 < timeout && frontier != []
    ensures popped.Some? ==>
              0 < timeout && |passes| < fuel && Stops(p, h, root, trace[|passes|], popped.value, res, solution, explored)
  {
    explored := {};
    solution := None;
    popped := None;
    var best := best0;
    frontier := [root];
    trace := [Snapshot(frontier, explored, best)];
    passes := [];
    var budget := fuel;
    var started := false;
    while frontier != [] && 0 < timeout
      invariant AllReached(p, root, frontier)
      invariant AtMost(best, best0)
      invariant timeout <= 0 ==> explored == {}
      invariant !started ==> frontier == [root] && budget == fuel
      invariant started ==> root.state in explored
      invariant |trace| == |passes| + 1 && trace[0] == Snapshot([root], {}, best0)
      invariant trace[|passes|] == Snapshot(frontier, explored, best)
      invariant forall i :: 0 <= i < |passes| ==> Continues(p, h, root, trace[i], passes[i], trace[i + 1])
      invariant |passes| + budget == fuel && (passes != [] ==> 0 < timeout)
      decreases budget
    {
      if budget == 0 {
        res := OutOfFuel;
        return;
      }
      budget := budget - 1;
      var pass, stop, sol, frontier', explored', best';
      pass, stop, sol, frontier', explored', best' := Iterate(p, h, root, frontier, explored, best);
      started := true;
      if stop.Some? {
        res := stop.value;
        solution := sol;
        explored := explored';
        popped := Some(pass);
        return;
      }
      AppendPass(p, h, root, trace, passes, pass, Snapshot(frontier', explored', best'));
      trace := trace + [Snapshot(frontier', explored', best')];
      passes := passes + [pass];
      frontier, explored, best := frontier', explored', best';
    }
    res := NoPlan(|explored|);
  }

  /** A trace of continuing passes extends by one more. */
  lemma {:induction false} AppendPass(p: Problem, h: Heuristic, root: Node, trace: seq<Snapshot>, passes: seq<Pass>,
                                      q: Pass, s': Snapshot)
    requires Setting(p, h, root) && |trace| == |passes| + 1
    requires forall i :: 0 <= i < |passes| ==> Continues(p, h, root, trace[i], passes[i], trace[i + 1])
    requires Continues(p, h, root, trace[|passes|], q, s')
    ensures forall i :: 0 <= i < |passes| + 1 ==>
              Continues(p, h, root, (trace + [s'])[i], (passes + [q])[i], (trace + [s'])[i + 1])
  {
    forall i | 0 <= i < |passes| + 1
      ensures Continues(p, h, root, (trace + [s'])[i], (passes + [q])[i], (trace + [s'])[i + 1])
    {
      if i < |passes| {
        assert (trace + [s'])[i] == trace[i] && (trace + [s'])[i + 1] == trace[i + 1];
        assert (passes + [q])[i] == passes[i];
      }
    }
  }

  /** The search (MyAlgorithm.java lines 103-288). `timeoutSeconds` is getTimeout(); since
      `time` stays 0 the loop runs while the frontier is non-empty and the
      millisecond bound is positive. `fuel` bounds the number of iterations. */
  method Search(p: Problem, timeoutSeconds: int, fuel: nat)
    returns (res: Outcome, solution: Option<Node>, explored: set<State>, frontier: seq<Node>,
             trace: seq<Snapshot>, passes: seq<Pass>, popped: Option<Pass>)
    requires ProblemOk(p) && IsInt32(timeoutSeconds)
    ensures res.Found? ==>
              && solution.Some? && NodeOk(solution.value)
              && Estimate(Build(p), solution.value) == Ok(Fin(0))
              && Solves(p, solution.value, res.plan)
              && solution.value.state in explored
    ensures res.Found? || res.NoPlan? ==> res.explored == |explored|
    ensures res.Failed? ==> res.fault.NullRole? && res.fault.role !in Build(p).roles
    ensures Agent !in Build(p).roles ==> res == Failed(NullRole(Agent))
    ensures Agent in Build(p).roles && Carrier !in Build(p).roles ==> res == Failed(NullRole(Carrier))
    ensures TimeoutMillis(timeoutSeconds) <= 0 ==> res.Failed? || res == NoPlan(0)
    ensures 0 < TimeoutMillis(timeoutSeconds) && 0 < fuel && !res.Failed? ==> p.init in explored
    ensures |trace| == |passes| + 1
    ensures Start(p).Err? ==> res == Failed(Start(p).error) && passes == [] && popped.None?
    ensures Start(p).Ok? ==> trace[0] == Snapshot([Start(p).value.0], {}, Start(p).value.1)
    ensures Start(p).Ok? ==> forall i :: 0 <= i < |passes| ==>
              Continues(p, Build(p), Start(p).value.0, trace[i], passes[i], trace[i + 1])
    ensures |passes| <= fuel && (passes != [] ==> 0 < TimeoutMillis(timeoutSeconds))
    ensures res.NoPlan? || res.OutOfFuel? ==>
              popped.None? && trace[|passes|].frontier == frontier && trace[|passes|].explored == explored
    ensures res.NoPlan? ==> (TimeoutMillis(timeoutSeconds) <= 0 && passes == []) || frontier == []
    ensures res.OutOfFuel? ==> |passes| == fuel && 0 < TimeoutMillis(timeoutSeconds) && frontier != []
    ensures res.Found? ==> popped.Some?
    ensures popped.Some? ==>
              && 0 < TimeoutMillis(timeoutSeconds) && |passes| < fuel
              && Start(p).Ok?
              && Stops(p, Build(p), Start(p).value.0, trace[|passes|], popped.value, res, solution, explored)
  {
    var h := Build(p);
    var r, best := Begin(p, h);
    if r.Err? {
      return Failed(r.error), None, {}, [], [Snapshot([], {}, Inf)], [], None;
    }
    res, solution, explored, frontier, trace, passes, popped :=
      Loop(p, h, r.value, best, TimeoutMillis(timeoutSeconds), fuel);
  }
}
