/** The delete-relaxed planning graph of MyHeuristic: the (action, conditional
    effect) pair tables built once per problem
    (classical_planning/src/MyHeuristic.java:219-322) and the layer-by-layer
    level assignment of expandRelaxedPlanningGraph (MyHeuristic.java lines 408-541). Positive and
    negative literals are one set of `Lit`s; the code's pair of bit vectors per
    literal kind is that set split by polarity. */
module RelaxedGraph {
  import opened Planning

  /** An (action, conditional effect) pair: the union of the action's
      precondition and the effect's condition, and the effect's literals. */
  datatype Pair = Pair(pre: set<Lit>, eff: set<Lit>)

  function PairsOf(a: Action): (r: seq<Pair>)
    ensures |r| == |a.effects|
    ensures forall j :: 0 <= j < |r| ==> r[j] == Pair(a.pre + a.effects[j].cond, a.effects[j].effect)
  {
    seq(|a.effects|, j requires 0 <= j < |a.effects| => Pair(a.pre + a.effects[j].cond, a.effects[j].effect))
  }

  /** The pairs of all actions, action by action, effect by effect. */
  function Pairs(actions: seq<Action>): (r: seq<Pair>)
    decreases |actions|
  {
    if actions == [] then [] else Pairs(actions[..|actions| - 1]) + PairsOf(actions[|actions| - 1])
  }

  /** Every pair of every action is in the table, and the table holds nothing else. */
  lemma {:induction false} PairsContents(actions: seq<Action>)
    ensures forall i, j :: 0 <= i < |actions| && 0 <= j < |actions[i].effects| ==>
              Pair(actions[i].pre + actions[i].effects[j].cond, actions[i].effects[j].effect) in Pairs(actions)
    ensures forall q :: q in Pairs(actions) ==>
              exists i, j :: 0 <= i < |actions| && 0 <= j < |actions[i].effects| &&
                q == Pair(actions[i].pre + actions[i].effects[j].cond, actions[i].effects[j].effect)
    decreases |actions|
  {
    if actions != [] {
      var init := actions[..|actions| - 1];
      var last := actions[|actions| - 1];
      PairsContents(init);
      var r := Pairs(actions);
      assert r == Pairs(init) + PairsOf(last);
      forall i, j | 0 <= i < |actions| && 0 <= j < |actions[i].effects|
        ensures Pair(actions[i].pre + actions[i].effects[j].cond, actions[i].effects[j].effect) in r
      {
        if i < |actions| - 1 {
          assert actions[i] == init[i];
        } else {
          assert PairsOf(last)[j] in r;
        }
      }
      forall q | q in r
        ensures exists i, j :: 0 <= i < |actions| && 0 <= j < |actions[i].effects| &&
                  q == Pair(actions[i].pre + actions[i].effects[j].cond, actions[i].effects[j].effect)
      {
        if q in Pairs(init) {
          var i, j :| 0 <= i < |init| && 0 <= j < |init[i].effects| &&
                      q == Pair(init[i].pre + init[i].effects[j].cond, init[i].effects[j].effect);
          assert actions[i] == init[i];
        } else {
          var j :| 0 <= j < |PairsOf(last)| && PairsOf(last)[j] == q;
          assert actions[|actions| - 1] == last;
        }
      }
    }
  }

  /** What the expansion reads of a problem: the fact count, the pair table and
      the goal literals. */
  datatype Table = Table(n: nat, pairs: seq<Pair>, goal: set<Lit>)

  /** Every literal the table mentions is over a fact below n. */
  predicate TableOk(t: Table) {
    && t.goal <= AllLits(t.n)
    && forall i :: 0 <= i < |t.pairs| ==> t.pairs[i].pre <= AllLits(t.n) && t.pairs[i].eff <= AllLits(t.n)
  }

  /** The expansion's scratch state after some layers: the level of every
      literal reached so far, the literals already processed (the pAcc/nAcc
      accumulators), the current layer (ppk/npk), the per-pair precondition
      counters, the goal counter and the current level. */
  datatype Graph = Graph(
    levels: map<Lit, nat>,
    processed: set<Lit>,
    layer: set<Lit>,
    counters: seq<nat>,
    goalCounter: nat,
    level: nat)

  /** Layer 0: every literal that holds in s gets level 0 (MyHeuristic.java:410-446). */
  function Init(t: Table, s: State): Graph {
    var holding := HoldingLits(s, t.n);
    Graph(map l | l in holding :: 0, {}, holding, seq(|t.pairs|, _ => 0), |t.goal * holding|, 0)
  }

  /** The pair's counter after the current layer is processed: one more per
      precondition literal in the layer; pairs without precondition literals
      keep a zero counter (MyHeuristic.java lines 464-466 and 482-484). */
  function PairCount(q: Pair, c: nat, layer: set<Lit>): nat {
    if q.pre == {} then c else c + |q.pre * layer|
  }

  /** Whether processing the layer visits the pair at all: a pair with
      precondition literals is visited from each of them, one without from
      every literal (MyHeuristic.java lines 315-322). */
  predicate Visited(q: Pair, layer: set<Lit>) {
    if q.pre == {} then layer != {} else q.pre * layer != {}
  }

  /** The pairs enabled while processing the current layer: visited, with the
      counter reaching the precondition's cardinality (MyHeuristic.java lines 468-470, 486-488). */
  function Enabled(t: Table, g: Graph): set<nat>
    requires |g.counters| == |t.pairs|
  {
    set i | 0 <= i < |t.pairs| && Visited(t.pairs[i], g.layer) &&
            PairCount(t.pairs[i], g.counters[i], g.layer) == |t.pairs[i].pre|
  }

  /** The literals the enabled pairs' effects reach that were never processed:
      the next layer (MyHeuristic.java lines 496-520). */
  function NextLayer(t: Table, enabled: set<nat>, processed: set<Lit>): set<Lit> {
    set l | l in AllLits(t.n) && l !in processed &&
            exists i :: 0 <= i < |t.pairs| && i in enabled && l in t.pairs[i].eff
  }

  /** One iteration of the expansion loop (MyHeuristic.java lines 454-538). */
  function Step(t: Table, g: Graph): Graph
    requires |g.counters| == |t.pairs|
  {
    var enabled := Enabled(t, g);
    var processed := g.processed + g.layer;
    var next := NextLayer(t, enabled, processed);
    Graph(
      g.levels + map l | l in next :: g.level + 1,
      processed,
      next,
      seq(|t.pairs|, i requires 0 <= i < |t.pairs| => PairCount(t.pairs[i], g.counters[i], g.layer)),
      g.goalCounter + |t.goal * next|,
      g.level + 1)
  }

  /** The expansion's invariant. */
  ghost predicate Inv(t: Table, s: State, g: Graph) {
    && g.processed !! g.layer
    && g.processed + g.layer <= AllLits(t.n)
    && g.levels.Keys == g.processed + g.layer
    && (forall l :: l in g.layer ==> g.levels[l] == g.level)
    && (forall l :: l in g.processed ==> g.levels[l] < g.level)
    && HoldingLits(s, t.n) <= g.levels.Keys
    && (forall l :: l in g.levels ==> (g.levels[l] == 0 <==> l in HoldingLits(s, t.n)))
    && |g.counters| == |t.pairs|
    && (forall i :: 0 <= i < |t.pairs| ==> g.counters[i] == |t.pairs[i].pre * g.processed|)
    && g.goalCounter == |t.goal * g.levels.Keys|
    && Closed(t, g)
  }

  /** Every pair all of whose precondition literals were processed has had its
      effects reached (pairs without precondition once any layer was processed). */
  ghost predicate Closed(t: Table, g: Graph) {
    forall i :: 0 <= i < |t.pairs| && t.pairs[i].pre <= g.processed && (t.pairs[i].pre != {} || g.processed != {}) ==>
      t.pairs[i].eff <= g.levels.Keys
  }

  // ---- Set facts ----

  lemma {:induction false} ProperSubsetSmaller<T>(a: set<T>, b: set<T>)
    requires a <= b && a != b
    ensures |a| < |b|
  {
    assert b == a + (b - a);
    assert b - a != {};
  }

  lemma {:induction false} SubsetSameSize<T>(a: set<T>, b: set<T>)
    requires a <= b && |a| == |b|
    ensures a == b
  {
    if a != b { ProperSubsetSmaller(a, b); }
  }

  lemma {:induction false} SplitMeet<T>(a: set<T>, b: set<T>, c: set<T>)
    requires b !! c
    ensures |a * (b + c)| == |a * b| + |a * c|
  {
    assert a * (b + c) == (a * b) + (a * c);
    assert (a * b) !! (a * c);
  }

  /** |a * b| reaches |a| exactly when a is inside b. */
  lemma {:induction false} MeetFull<T>(a: set<T>, b: set<T>)
    ensures |a * b| == |a| <==> a <= b
  {
    if |a * b| == |a| { SubsetSameSize(a * b, a); }
    if a <= b { assert a * b == a; }
  }

  // ---- The invariant is established and kept ----

  lemma {:induction false} InitInv(t: Table, s: State)
    requires TableOk(t)
    ensures Inv(t, s, Init(t, s))
  {
  }

  /** A pair is enabled in a layer exactly when the layer processes the last of
      its precondition literals (all of them are then processed); a pair without
      precondition literals is enabled in every non-empty layer. */
  lemma {:induction false} EnabledIff(t: Table, s: State, g: Graph, i: nat)
    requires Inv(t, s, g) && i < |t.pairs|
    ensures i in Enabled(t, g) <==>
              var pre := t.pairs[i].pre;
              && pre <= g.processed + g.layer
              && (pre * g.layer != {} || (pre == {} && g.layer != {}))
  {
    var pre := t.pairs[i].pre;
    if pre != {} {
      SplitMeet(pre, g.processed, g.layer);
      MeetFull(pre, g.processed + g.layer);
    }
  }

  /** The effects of an enabled pair are reached by the next layer at the latest. */
  lemma {:induction false} EnabledReaches(t: Table, s: State, g: Graph, i: nat)
    requires TableOk(t) && Inv(t, s, g) && i in Enabled(t, g)
    ensures t.pairs[i].eff <= Step(t, g).levels.Keys
  {
    var g' := Step(t, g);
    forall l | l in t.pairs[i].eff ensures l in g'.levels.Keys {
      if l !in g.processed + g.layer {
        assert l in NextLayer(t, Enabled(t, g), g.processed + g.layer);
      }
    }
  }

  lemma {:induction false} StepCounters(t: Table, s: State, g: Graph)
    requires Inv(t, s, g)
    ensures var g' := Step(t, g);
            forall i :: 0 <= i < |t.pairs| ==> g'.counters[i] == |t.pairs[i].pre * g'.processed|
  {
    forall i | 0 <= i < |t.pairs|
      ensures Step(t, g).counters[i] == |t.pairs[i].pre * (g.processed + g.layer)|
    {
      SplitMeet(t.pairs[i].pre, g.processed, g.layer);
    }
  }

  lemma {:induction false} StepClosed(t: Table, s: State, g: Graph)
    requires TableOk(t) && Inv(t, s, g) && g.layer != {}
    ensures Closed(t, Step(t, g))
  {
    var g' := Step(t, g);
    forall i | 0 <= i < |t.pairs| && t.pairs[i].pre <= g'.processed && (t.pairs[i].pre != {} || g'.processed != {})
      ensures t.pairs[i].eff <= g'.levels.Keys
    {
      var pre := t.pairs[i].pre;
      if pre <= g.processed && (pre != {} || g.processed != {}) {
        assert t.pairs[i].eff <= g.levels.Keys;
      } else {
        if pre != {} {
          var l :| l in pre && l !in g.processed;
          assert l in pre * g.layer;
        }
        EnabledIff(t, s, g, i);
        EnabledReaches(t, s, g, i);
      }
    }
  }

  /** The next layer is new, within range, and gets the next level. */
  lemma {:induction false} StepKeys(t: Table, s: State, g: Graph)
    requires TableOk(t) && Inv(t, s, g)
    ensures var g' := Step(t, g);
            && g'.processed == g.processed + g.layer
            && g'.processed !! g'.layer
            && g'.processed + g'.layer <= AllLits(t.n)
  {
    var g' := Step(t, g);
    assert g'.layer == NextLayer(t, Enabled(t, g), g.processed + g.layer);
    assert forall l :: l in g'.layer ==> l in AllLits(t.n) && l !in g'.processed;
  }

  lemma {:induction false} StepKeySet(t: Table, s: State, g: Graph)
    requires TableOk(t) && Inv(t, s, g)
    ensures var g' := Step(t, g);
            && g'.levels.Keys == g.levels.Keys + g'.layer
            && g'.levels.Keys == g'.processed + g'.layer
  {
  }

  /** The next layer's literals get the next level; earlier levels stay. */
  lemma {:induction false} StepNewLevels(t: Table, s: State, g: Graph)
    requires TableOk(t) && Inv(t, s, g)
    ensures var g' := Step(t, g);
            && (forall l :: l in g'.layer ==> g'.levels[l] == g'.level)
            && (forall l :: l in g.levels ==> g'.levels[l] == g.levels[l])
  {
    var g' := Step(t, g);
    assert g'.layer == NextLayer(t, Enabled(t, g), g.processed + g.layer);
    assert forall l :: l in g'.layer ==> l in AllLits(t.n) && l !in g'.processed;
  }

  lemma {:induction false} StepLevels(t: Table, s: State, g: Graph)
    requires TableOk(t) && Inv(t, s, g)
    ensures var g' := Step(t, g);
            && g'.processed !! g'.layer
            && g'.processed + g'.layer <= AllLits(t.n)
            && g'.levels.Keys == g'.processed + g'.layer
            && (forall l :: l in g'.layer ==> g'.levels[l] == g'.level)
            && (forall l :: l in g'.processed ==> g'.levels[l] < g'.level)
            && HoldingLits(s, t.n) <= g'.levels.Keys
            && (forall l :: l in g'.levels ==> (g'.levels[l] == 0 <==> l in HoldingLits(s, t.n)))
            && (forall l :: l in g.levels ==> l in g'.levels && g'.levels[l] == g.levels[l])
  {
    var g' := Step(t, g);
    StepKeys(t, s, g);
    StepKeySet(t, s, g);
    StepNewLevels(t, s, g);
    forall l | l in g'.processed ensures g'.levels[l] < g'.level {
      assert l in g.levels;
    }
    forall l | l in g'.levels ensures g'.levels[l] == 0 <==> l in HoldingLits(s, t.n) {
      if l !in g.levels {
        assert l in g'.layer;
      }
    }
  }

  lemma {:induction false} StepGoal(t: Table, s: State, g: Graph)
    requires TableOk(t) && Inv(t, s, g)
    ensures Step(t, g).goalCounter == |t.goal * Step(t, g).levels.Keys|
  {
    var g' := Step(t, g);
    StepKeys(t, s, g);
    StepKeySet(t, s, g);
    SplitMeet(t.goal, g.levels.Keys, g'.layer);
  }

  /** One layer keeps the invariant, never changes an assigned level, and
      strictly shrinks the literals still to be processed. */
  lemma {:induction false} StepInv(t: Table, s: State, g: Graph)
    requires TableOk(t) && Inv(t, s, g) && g.layer != {}
    ensures Inv(t, s, Step(t, g))
    ensures forall l :: l in g.levels ==> l in Step(t, g).levels && Step(t, g).levels[l] == g.levels[l]
    ensures |AllLits(t.n) - Step(t, g).processed| < |AllLits(t.n) - g.processed|
  {
    StepLevels(t, s, g);
    StepCounters(t, s, g);
    StepGoal(t, s, g);
    StepClosed(t, s, g);
    var l :| l in g.layer;
    assert l in (AllLits(t.n) - g.processed) - (AllLits(t.n) - Step(t, g).processed);
    ProperSubsetSmaller(AllLits(t.n) - Step(t, g).processed, AllLits(t.n) - g.processed);
  }

  // ---- The expansion loop ----

  /** Layers are added until every goal literal has a level or a layer brings
      nothing new (MyHeuristic.java lines 452-539). Levels, once assigned, never change. */
  function ExpandGraph(t: Table, s: State, g: Graph): (r: Graph)
    requires TableOk(t) && Inv(t, s, g)
    ensures Inv(t, s, r)
    ensures r.goalCounter == |t.goal| || r.layer == {}
    ensures forall l :: l in g.levels ==> l in r.levels && r.levels[l] == g.levels[l]
    ensures g.processed <= r.processed
    decreases |AllLits(t.n) - g.processed|
  {
    if g.goalCounter == |t.goal| || g.layer == {} then g
    else
      StepInv(t, s, g);
      ExpandGraph(t, s, Step(t, g))
  }

  /** expandRelaxedPlanningGraph: the expansion from layer 0 of state s. */
  function Relaxed(t: Table, s: State): (r: Graph)
    requires TableOk(t)
    ensures Inv(t, s, r)
    ensures r.goalCounter == |t.goal| || r.layer == {}
    ensures forall l :: l in HoldingLits(s, t.n) ==> l in r.levels && r.levels[l] == 0
  {
    InitInv(t, s);
    ExpandGraph(t, s, Init(t, s))
  }

  /** isGoalReachable: the goal counter reaches the goal's cardinality exactly
      when every goal literal has a level. */
  lemma {:induction false} GoalReachedIff(t: Table, s: State, g: Graph)
    requires Inv(t, s, g)
    ensures g.goalCounter == |t.goal| <==> t.goal <= g.levels.Keys
  {
    MeetFull(t.goal, g.levels.Keys);
  }

  /** A saturated graph (no new layer) is closed under the pairs: a pair whose
      precondition literals all have levels has all its effects leveled too. */
  lemma {:induction false} SaturatedClosed(t: Table, s: State, g: Graph, i: nat)
    requires TableOk(t) && Inv(t, s, g) && g.layer == {}
    requires i < |t.pairs| && t.pairs[i].pre <= g.levels.Keys
    ensures t.pairs[i].eff <= g.levels.Keys
  {
    HoldingLitsNonEmpty(s, t.n);
  }

  /** Some literal over every fact holds, so layer 0 is empty only without facts. */
  lemma {:induction false} HoldingLitsNonEmpty(s: State, n: nat)
    ensures n > 0 ==> HoldingLits(s, n) != {}
  {
    if n > 0 {
      var l := if 0 in s then Pos(0) else Neg(0);
      assert l in HoldingLits(s, n);
    }
  }

  /** The effects an action applies are among the effects of its pairs. */
  lemma {:induction false} LastTouchWitness(cur: State, effs: seq<CondEffect>, f: nat)
    requires LastTouch(cur, effs, f).Some?
    ensures exists j :: 0 <= j < |effs| && Satisfies(cur, effs[j].cond) &&
              Touch(effs[j].effect, f) == LastTouch(cur, effs, f)
    decreases |effs|
  {
    var last := effs[|effs| - 1];
    if !(Satisfies(cur, last.cond) && Touch(last.effect, f).Some?) {
      var init := effs[..|effs| - 1];
      LastTouchWitness(cur, init, f);
      var j :| 0 <= j < |init| && Satisfies(cur, init[j].cond) && Touch(init[j].effect, f) == LastTouch(cur, init, f);
      assert effs[j] == init[j];
    }
  }

  /** If every literal holding in s1 has a level in a saturated graph, so has
      every literal holding after any action of the table's problem. */
  lemma {:induction false} SuccessorWithin(actions: seq<Action>, t: Table, s: State, g: Graph, s1: State, a: Action)
    requires t.pairs == Pairs(actions) && TableOk(t) && Inv(t, s, g) && g.layer == {}
    requires a in actions && ActionBelow(a, t.n) && Applicable(s1, a)
    requires HoldingLits(s1, t.n) <= g.levels.Keys
    ensures HoldingLits(Successor(s1, a), t.n) <= g.levels.Keys
  {
    forall l | l in HoldingLits(Successor(s1, a), t.n) ensures l in g.levels.Keys {
      SuccessorLitWithin(actions, t, s, g, s1, a, l);
    }
  }

  /** One literal holding after the action: either the last effect touching
      its fact made it hold, and that effect's pair fires in the graph, or it
      already held. */
  lemma {:induction false} SuccessorLitWithin(actions: seq<Action>, t: Table, s: State, g: Graph, s1: State, a: Action,
                                              l: Lit)
    requires t.pairs == Pairs(actions) && TableOk(t) && Inv(t, s, g) && g.layer == {}
    requires a in actions && ActionBelow(a, t.n) && Applicable(s1, a)
    requires HoldingLits(s1, t.n) <= g.levels.Keys
    requires l in HoldingLits(Successor(s1, a), t.n)
    ensures l in g.levels.Keys
  {
    var f := l.fact;
    SuccessorFact(s1, a, f);
    if LastTouch(s1, a.effects, f).Some? {
      LastTouchWitness(s1, a.effects, f);
      var j :| 0 <= j < |a.effects| && Satisfies(s1, a.effects[j].cond) &&
               Touch(a.effects[j].effect, f) == LastTouch(s1, a.effects, f);
      TouchedWithin(actions, t, s, g, s1, a, j, l);
    } else {
      assert l in HoldingLits(s1, t.n);
    }
  }

  /** A literal made to hold by a firing effect of a problem action has a
      level in the saturated graph. */
  lemma {:induction false} TouchedWithin(actions: seq<Action>, t: Table, s: State, g: Graph, s1: State, a: Action,
                                         j: nat, l: Lit)
    requires t.pairs == Pairs(actions) && TableOk(t) && Inv(t, s, g) && g.layer == {}
    requires a in actions && Applicable(s1, a)
    requires HoldingLits(s1, t.n) <= g.levels.Keys
    requires j < |a.effects| && Satisfies(s1, a.effects[j].cond)
    requires l.fact < t.n && Touch(a.effects[j].effect, l.fact).Some? && Touch(a.effects[j].effect, l.fact).value == l.Pos?
    ensures l in g.levels.Keys
  {
    var f := l.fact;
    var q := Pair(a.pre + a.effects[j].cond, a.effects[j].effect);
    PairsContents(actions);
    var ai :| 0 <= ai < |actions| && actions[ai] == a;
    assert q in t.pairs;
    var i :| 0 <= i < |t.pairs| && t.pairs[i] == q;
    assert q.pre <= HoldingLits(s1, t.n);
    SaturatedClosed(t, s, g, i);
    if l.Pos? { assert Pos(f) in q.eff; } else { assert Neg(f) in q.eff; }
  }

  /** Every literal holding in any state reachable by a plan of the problem's
      actions has a level in the saturated graph. */
  lemma {:induction false} ReachableWithin(actions: seq<Action>, t: Table, s: State, g: Graph, s1: State, plan: seq<Action>)
    requires t.pairs == Pairs(actions) && TableOk(t) && Inv(t, s, g) && g.layer == {}
    requires forall i :: 0 <= i < |actions| ==> ActionBelow(actions[i], t.n)
    requires forall i :: 0 <= i < |plan| ==> plan[i] in actions
    requires HoldingLits(s1, t.n) <= g.levels.Keys
    requires Run(s1, plan).Some?
    ensures HoldingLits(Run(s1, plan).value, t.n) <= g.levels.Keys
    decreases |plan|
  {
    if plan != [] {
      var a := plan[0];
      var ai :| 0 <= ai < |actions| && actions[ai] == a;
      SuccessorWithin(actions, t, s, g, s1, a);
      ReachableWithin(actions, t, s, g, Successor(s1, a), plan[1..]);
    }
  }

  /** Reachability check soundness: when the expansion ends with some goal
      literal unleveled, no plan of the problem's actions reaches the goal
      from s, so the node is safe to discard. */
  lemma {:induction false} UnreachableSound(actions: seq<Action>, t: Table, s: State, plan: seq<Action>)
    requires t.pairs == Pairs(actions) && TableOk(t)
    requires forall i :: 0 <= i < |actions| ==> ActionBelow(actions[i], t.n)
    requires forall i :: 0 <= i < |plan| ==> plan[i] in actions
    requires Relaxed(t, s).goalCounter != |t.goal|
    ensures Run(s, plan).None? || !Satisfies(Run(s, plan).value, t.goal)
  {
    var g := Relaxed(t, s);
    GoalReachedIff(t, s, g);
    if Run(s, plan).Some? {
      ReachableWithin(actions, t, s, g, s, plan);
      var l :| l in t.goal && l !in g.levels.Keys;
      assert l !in HoldingLits(Run(s, plan).value, t.n);
    }
  }

  // ---- The SUM value ----

  /** The levels of the goal literals over facts f .. n-1 added up (getSumValue,
      MyHeuristic.java lines 550-561, visits the same literals). */
  function SumFrom(goal: set<Lit>, levels: map<Lit, nat>, f: nat, n: nat): nat
    requires forall l :: l in goal && l.fact < n ==> l in levels
    decreases n - f
  {
    if f >= n then 0
    else
      (if Pos(f) in goal then levels[Pos(f)] else 0) +
      (if Neg(f) in goal then levels[Neg(f)] else 0) +
      SumFrom(goal, levels, f + 1, n)
  }

  /** The sum is 0 exactly when every goal literal it visits is at level 0. */
  lemma {:induction false} SumFromZeroIff(goal: set<Lit>, levels: map<Lit, nat>, f: nat, n: nat)
    requires forall l :: l in goal && l.fact < n ==> l in levels
    ensures SumFrom(goal, levels, f, n) == 0 <==> forall l :: l in goal && f <= l.fact < n ==> levels[l] == 0
    decreases n - f
  {
    if f < n {
      SumFromZeroIff(goal, levels, f + 1, n);
      if SumFrom(goal, levels, f, n) == 0 {
        forall l | l in goal && f <= l.fact < n ensures levels[l] == 0 {
          if l.fact == f {
            if l.Pos? { assert l == Pos(f); } else { assert l == Neg(f); }
          }
        }
      }
    }
  }

  /** The sum is at least the level of every goal literal. */
  lemma {:induction false} SumFromAtLeast(goal: set<Lit>, levels: map<Lit, nat>, f: nat, n: nat, l: Lit)
    requires forall l :: l in goal && l.fact < n ==> l in levels
    requires l in goal && f <= l.fact < n
    ensures levels[l] <= SumFrom(goal, levels, f, n)
    decreases n - f
  {
    if l.fact != f {
      SumFromAtLeast(goal, levels, f + 1, n, l);
    } else if l.Pos? {
      assert l == Pos(f);
    } else {
      assert l == Neg(f);
    }
  }

  /** A finished expansion's SUM value is 0 exactly when the goal holds in s. */
  lemma {:induction false} SumZeroIffGoalHolds(t: Table, s: State, g: Graph)
    requires TableOk(t) && Inv(t, s, g) && t.goal <= g.levels.Keys
    ensures SumFrom(t.goal, g.levels, 0, t.n) == 0 <==> Satisfies(s, t.goal)
  {
    SumFromZeroIff(t.goal, g.levels, 0, t.n);
  }
}
