/** The five action schemas of the emergency-services-logistics domain that the
    planner recognises by name, and what each parameter position stands for. */
module Schemas {
  import opened Results

  datatype Kind = MoveAgent | MoveAgentAndCarrier | Fill | Deliver | UnloadEmpty

  /** The schema's name as the code spells it (lower case). */
  function KindName(k: Kind): string {
    match k
    case MoveAgent => "move_agent"
    case MoveAgentAndCarrier => "move_agent_and_carrier"
    case Fill => "fill_box_and_load_it_on_carrier"
    case Deliver => "unload_box_deliver_its_content_and_reload_it_on_carrier"
    case UnloadEmpty => "unload_empty_box_from_carrier"
  }

  /** ASCII lower-casing of one character. */
  function LowerChar(c: char): char {
    if 'A' <= c <= 'Z' then (c as int - 'A' as int + 'a' as int) as char else c
  }

  function Lower(s: string): (r: string)
    ensures |r| == |s|
    ensures forall i :: 0 <= i < |s| ==> r[i] == LowerChar(s[i])
  {
    if s == [] then [] else [LowerChar(s[0])] + Lower(s[1..])
  }

  /** The length of each schema's name. The five lengths differ, so a name is
      compared with at most one schema name, much as Java's string `switch`
      first dispatches on a hash. */
  function NameLength(k: Kind): (n: nat)
    ensures n == |KindName(k)|
  {
    match k
    case MoveAgent => 10
    case MoveAgentAndCarrier => 22
    case Fill => 31
    case Deliver => 55
    case UnloadEmpty => 29
  }

  /** The schema an action name denotes, compared case-insensitively; None for
      any other name. */
  function KindOf(name: string): (r: Option<Kind>)
    ensures r.Some? ==> Lower(name) == KindName(r.value)
    ensures r.None? ==> forall k :: Lower(name) != KindName(k)
  {
    var low := Lower(name);
    if |low| == NameLength(MoveAgent) && low == KindName(MoveAgent) then Some(MoveAgent)
    else if |low| == NameLength(MoveAgentAndCarrier) && low == KindName(MoveAgentAndCarrier) then Some(MoveAgentAndCarrier)
    else if |low| == NameLength(Fill) && low == KindName(Fill) then Some(Fill)
    else if |low| == NameLength(Deliver) && low == KindName(Deliver) then Some(Deliver)
    else if |low| == NameLength(UnloadEmpty) && low == KindName(UnloadEmpty) then Some(UnloadEmpty)
    else None
  }

  predicate IsMove(k: Kind) {
    k == MoveAgent || k == MoveAgentAndCarrier
  }

  /** The column of the per-agent counter matrix that counts actions of kind k
      (column 0 holds the agent id). */
  function Column(k: Kind): (c: nat)
    ensures 1 <= c <= 5
  {
    match k
    case MoveAgent => 1
    case MoveAgentAndCarrier => 2
    case Fill => 3
    case Deliver => 4
    case UnloadEmpty => 5
  }

  /** The counter column of an action name, or -1 for an unrecognised name. */
  function ActionIndex(name: string): (r: int)
    ensures r == -1 <==> KindOf(name).None?
    ensures KindOf(name).Some? ==> r == Column(KindOf(name).value)
    ensures r != -1 ==> 1 <= r <= 5
  {
    match KindOf(name)
    case Some(k) => Column(k)
    case None => -1
  }

  /** The roles objects play in the domain. */
  datatype Role = Agent | Location | Carrier | Box | BoxPlace | Content | Person

  /** Which parameter position of a schema holds an object of which role. */
  function Positions(k: Kind): seq<(nat, Role)> {
    match k
    case MoveAgent => [(0, Agent), (1, Location), (2, Location)]
    case MoveAgentAndCarrier => [(0, Agent), (1, Carrier), (2, Location), (3, Location)]
    case Fill => [(0, Agent), (1, Carrier), (2, Box), (3, BoxPlace), (4, Content)]
    case Deliver => [(0, Agent), (1, Carrier), (2, Box), (3, Content), (4, Person), (5, Location)]
    case UnloadEmpty => [(0, Agent), (1, Carrier), (2, Box), (3, BoxPlace)]
  }

  /** The number of parameters the code reads from an action of kind k. */
  function MinParams(k: Kind): (r: nat)
    ensures forall j :: 0 <= j < |Positions(k)| ==> Positions(k)[j].0 < r
    ensures r >= 3
  {
    |Positions(k)|
  }

  /** An action name the code recognises, with as many parameters as it reads. */
  predicate Recognised(name: string, params: seq<int>) {
    KindOf(name).Some? && |params| >= MinParams(KindOf(name).value)
  }

  /** Every schema puts the agent first; all but move_agent put the carrier second. */
  lemma {:induction false} AgentAndCarrierPositions(k: Kind)
    ensures Positions(k)[0] == (0, Agent)
    ensures k != MoveAgent ==> Positions(k)[1] == (1, Carrier)
  {
  }
}
