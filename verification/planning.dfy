/** Grounded STRIPS-style problems with conditional effects: facts, literals,
    states, ground actions and the state-transition function used by the search
    when it builds a child state (classical_planning/src/MyAlgorithm.java:229-248). */
module Planning {
  import opened Results

  /** A literal over a fact index: the fact holds (Pos) or does not hold (Neg).
      A condition keeps its positive and negative fluents in one set of literals. */
  datatype Lit = Pos(fact: nat) | Neg(fact: nat)

  /** A state is the set of facts that hold; every other fact does not hold. */
  type State = set<nat>

  type Cond = set<Lit>

  predicate Holds(s: State, l: Lit) {
    match l
    case Pos(f) => f in s
    case Neg(f) => f !in s
  }

  predicate Satisfies(s: State, c: Cond) {
    forall l :: l in c ==> Holds(s, l)
  }

  /** An effect that applies only if its condition holds; `effect` adds its
      positive literals' facts and deletes its negative literals' facts. */
  datatype CondEffect = CondEffect(cond: Cond, effect: set<Lit>)

  /** A ground action: its schema name, its ordered parameter object ids, its
      precondition and its conditional effects in declaration order. */
  datatype Action = Action(name: string, params: seq<int>, pre: Cond, effects: seq<CondEffect>)

  predicate Applicable(s: State, a: Action) {
    Satisfies(s, a.pre)
  }

  /** Applies one effect: deletes first, then adds, so a fact both added and
      deleted by the same effect ends up holding. */
  function Apply(s: State, eff: set<Lit>): (r: State)
    ensures forall f :: f in r <==> Pos(f) in eff || (f in s && Neg(f) !in eff)
  {
    (s - set l | l in eff && l.Neg? :: l.fact) + (set l | l in eff && l.Pos? :: l.fact)
  }

  /** Applies, in order, every conditional effect whose condition holds in `cur`
      (the parent state) to the state being built, `s`. */
  function ApplyTriggered(cur: State, s: State, effs: seq<CondEffect>): State
    decreases |effs|
  {
    if effs == [] then s
    else
      var s' := if Satisfies(cur, effs[0].cond) then Apply(s, effs[0].effect) else s;
      ApplyTriggered(cur, s', effs[1..])
  }

  /** The state a child node gets when `a` is applied to its parent's state `s`. */
  function Successor(s: State, a: Action): State {
    ApplyTriggered(s, s, a.effects)
  }

  /** What an effect does to fact f: Some(true) if it adds f, Some(false) if it
      only deletes f, None if it leaves f alone. */
  function Touch(eff: set<Lit>, f: nat): Option<bool> {
    if Pos(f) in eff then Some(true)
    else if Neg(f) in eff then Some(false)
    else None
  }

  /** The verdict on fact f of the last effect in `effs` that is triggered in
      `cur` and touches f, if any: an independent, "last writer wins" reading of
      ApplyTriggered. */
  function LastTouch(cur: State, effs: seq<CondEffect>, f: nat): Option<bool>
    decreases |effs|
  {
    if effs == [] then None
    else
      var last := effs[|effs| - 1];
      if Satisfies(cur, last.cond) && Touch(last.effect, f).Some? then Touch(last.effect, f)
      else LastTouch(cur, effs[..|effs| - 1], f)
  }

  /** A fact holds after the triggered effects iff the last triggered effect that
      touches it adds it, or none touches it and it held before. */
  lemma {:induction false} ApplyTriggeredFact(cur: State, s: State, effs: seq<CondEffect>, f: nat)
    ensures f in ApplyTriggered(cur, s, effs) <==>
              match LastTouch(cur, effs, f)
              case Some(b) => b
              case None => f in s
    decreases |effs|
  {
    if effs != [] {
      var init := effs[..|effs| - 1];
      var last := effs[|effs| - 1];
      assert effs == init + [last];
      ApplyTriggeredSnoc(cur, s, init, last);
      ApplyTriggeredFact(cur, s, init, f);
      var t := ApplyTriggered(cur, s, init);
      if Satisfies(cur, last.cond) {
        assert f in Apply(t, last.effect) <==> Pos(f) in last.effect || (f in t && Neg(f) !in last.effect);
      }
    }
  }

  /** ApplyTriggered over `init + [last]` finishes with `last`. */
  lemma {:induction false} ApplyTriggeredSnoc(cur: State, s: State, init: seq<CondEffect>, last: CondEffect)
    ensures ApplyTriggered(cur, s, init + [last]) ==
              var t := ApplyTriggered(cur, s, init);
              if Satisfies(cur, last.cond) then Apply(t, last.effect) else t
    decreases |init|
  {
    if init == [] {
      assert init + [last] == [last];
      assert ([last])[1..] == [];
    } else {
      var s' := if Satisfies(cur, init[0].cond) then Apply(s, init[0].effect) else s;
      assert (init + [last])[1..] == init[1..] + [last];
      ApplyTriggeredSnoc(cur, s', init[1..], last);
    }
  }

  /** A successor state keeps a fact that held in the parent unless a triggered
      effect deletes it, and gains one only if a triggered effect adds it. */
  lemma {:induction false} SuccessorFact(s: State, a: Action, f: nat)
    ensures f in Successor(s, a) <==>
              match LastTouch(s, a.effects, f)
              case Some(b) => b
              case None => f in s
  {
    ApplyTriggeredFact(s, s, a.effects, f);
  }

  /** Runs a plan from `s`: None if some action is not applicable where it is
      taken, otherwise the state reached. */
  function Run(s: State, plan: seq<Action>): Option<State>
    decreases |plan|
  {
    if plan == [] then Some(s)
    else if Applicable(s, plan[0]) then Run(Successor(s, plan[0]), plan[1..])
    else None
  }

  /** Runs one more action at the end of a plan. */
  lemma {:induction false} RunSnoc(s: State, plan: seq<Action>, a: Action)
    ensures Run(s, plan + [a]) ==
              match Run(s, plan)
              case None => None
              case Some(t) => if Applicable(t, a) then Some(Successor(t, a)) else None
    decreases |plan|
  {
    if plan == [] {
      assert plan + [a] == [a];
      assert ([a])[1..] == [];
    } else {
      assert (plan + [a])[1..] == plan[1..] + [a];
      if Applicable(s, plan[0]) {
        RunSnoc(Successor(s, plan[0]), plan[1..], a);
      }
    }
  }

  // ---- Well-formedness with respect to a fact count n ----

  predicate LitsBelow(c: set<Lit>, n: nat) {
    forall l :: l in c ==> l.fact < n
  }

  predicate StateBelow(s: State, n: nat) {
    forall f :: f in s ==> f < n
  }

  predicate ActionBelow(a: Action, n: nat) {
    && LitsBelow(a.pre, n)
    && forall i :: 0 <= i < |a.effects| ==> LitsBelow(a.effects[i].cond, n) && LitsBelow(a.effects[i].effect, n)
  }

  /** Every literal over the facts 0 .. n-1. */
  function AllLits(n: nat): (r: set<Lit>)
    ensures forall l :: l in r <==> l.fact < n
  {
    var r := (set f | 0 <= f < n :: Pos(f)) + (set f | 0 <= f < n :: Neg(f));
    assert forall l: Lit :: l.fact < n ==> l in r by {
      forall l: Lit | l.fact < n ensures l in r {
        if l.Pos? { assert l == Pos(l.fact); } else { assert l == Neg(l.fact); }
      }
    }
    r
  }

  /** The literals over facts 0 .. n-1 that hold in s: the heuristic's layer 0. */
  function HoldingLits(s: State, n: nat): (r: set<Lit>)
    ensures forall l :: l in r <==> l.fact < n && Holds(s, l)
  {
    set l | l in AllLits(n) && Holds(s, l)
  }

  /** A successor of a state whose facts are below n has its facts below n too. */
  lemma {:induction false} SuccessorBelow(s: State, a: Action, n: nat)
    requires StateBelow(s, n) && ActionBelow(a, n)
    ensures StateBelow(Successor(s, a), n)
  {
    forall f | f in Successor(s, a) ensures f < n {
      SuccessorFact(s, a, f);
      if f !in s {
        LastTouchIsSome(s, a.effects, f, n);
      }
    }
  }

  /** A fact some triggered effect touches is mentioned by that effect. */
  lemma {:induction false} LastTouchIsSome(cur: State, effs: seq<CondEffect>, f: nat, n: nat)
    requires forall i :: 0 <= i < |effs| ==> LitsBelow(effs[i].effect, n)
    requires LastTouch(cur, effs, f).Some?
    ensures f < n
    decreases |effs|
  {
    var last := effs[|effs| - 1];
    if !(Satisfies(cur, last.cond) && Touch(last.effect, f).Some?) {
      LastTouchIsSome(cur, effs[..|effs| - 1], f, n);
    } else if Pos(f) in last.effect {
      assert Pos(f).fact < n;
    } else {
      assert Neg(f).fact < n;
    }
  }
}
