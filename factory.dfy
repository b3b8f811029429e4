/**
 * The agent factory: a kind name, matched without regard to case, and the
 * optional keyword arguments select one agent configuration with the
 * factory's defaults filled in; an unknown kind raises `ValueError`.
 */
module AgentFactory {
  import opened Outcomes

  /** The keyword arguments the factory reads; `None` means the caller left one out. */
  datatype Options = Options(
    color: Option<string>,
    depth: Option<int>,
    alpha: Option<real>,
    gamma: Option<real>,
    epsilon: Option<real>,
    initialQValue: Option<real>,
    nSimulations: Option<int>,
    mSteps: Option<int>)

  const NoOptions := Options(None, None, None, None, None, None, None, None)

  /** The agent the factory builds, with the arguments it passes to the constructor. */
  datatype AgentConfig =
    | Human
    | Random
    | MultiAStar(color: string, depth: int)
    | Minimax(color: string, depth: int)
    | Expectimax(color: string, depth: int)
    | AlphaBeta(color: string, depth: int)
    | QLearning(color: string, alpha: real, gamma: real, epsilon: real, initialQValue: real)
    | Mcts(nSimulations: int, mSteps: int)

  /** `kwargs.get(key, default)`. */
  function Get<T>(o: Option<T>, default: T): T {
    if o.Some? then o.value else default
  }

  function LowerChar(ch: char): char {
    if 'A' <= ch <= 'Z' then (ch as int + 32) as char else ch
  }

  /** `str.lower` on the ASCII letters. */
  function Lower(s: string): (r: string)
    ensures |r| == |s|
    ensures forall i :: 0 <= i < |s| ==> r[i] == LowerChar(s[i])
  {
    if s == [] then [] else [LowerChar(s[0])] + Lower(s[1..])
  }

  /** The kinds the factory knows, in lower case. */
  const KnownKinds: set<string> :=
    {"human", "random", "multiastar", "minimax", "expectimax", "alphabeta", "qlearning", "mcts"}

  /** `AgentFactory.create_agent`: the if/elif chain on the lowered kind. */
  function CreateAgent(agentType: string, kwargs: Options): Result<AgentConfig> {
    var kind := Lower(agentType);
    if kind == "human" then Ok(Human)
    else if kind == "random" then Ok(Random)
    else if kind == "multiastar" then Ok(MultiAStar(Get(kwargs.color, "black"), Get(kwargs.depth, 4)))
    else if kind == "minimax" then Ok(Minimax(Get(kwargs.color, "black"), Get(kwargs.depth, 1)))
    else if kind == "expectimax" then Ok(Expectimax(Get(kwargs.color, "black"), Get(kwargs.depth, 2)))
    else if kind == "alphabeta" then Ok(AlphaBeta(Get(kwargs.color, "black"), Get(kwargs.depth, 4)))
    else if kind == "qlearning" then
      Ok(QLearning(Get(kwargs.color, "black"), Get(kwargs.alpha, 0.2), Get(kwargs.gamma, 0.9),
                   Get(kwargs.epsilon, 0.3), Get(kwargs.initialQValue, 0.1)))
    else if kind == "mcts" then Ok(Mcts(Get(kwargs.nSimulations, 100), Get(kwargs.mSteps, 10)))
    else Raised(ValueError("Unknown agent type: " + agentType))
  }

  /** Lowering twice is lowering once. */
  lemma {:induction false} LowerIdempotent(s: string)
    ensures Lower(Lower(s)) == Lower(s)
  {
    if s != [] {
      LowerIdempotent(s[1..]);
    }
  }

  /** The kind is matched without regard to case: any spelling with the same lower case builds the same agent. */
  lemma CaseInsensitive(agentType: string, other: string, kwargs: Options)
    requires Lower(agentType) == Lower(other)
    ensures CreateAgent(agentType, kwargs).Ok? ==> CreateAgent(agentType, kwargs) == CreateAgent(other, kwargs)
    ensures CreateAgent(agentType, kwargs).Raised? <==> CreateAgent(other, kwargs).Raised?
  {
  }

  /** Writing the kind in lower case first changes nothing. */
  lemma LoweredKindSameAgent(agentType: string, kwargs: Options)
    ensures CreateAgent(Lower(agentType), kwargs).Ok? <==> CreateAgent(agentType, kwargs).Ok?
    ensures CreateAgent(agentType, kwargs).Ok? ==> CreateAgent(Lower(agentType), kwargs) == CreateAgent(agentType, kwargs)
  {
    LowerIdempotent(agentType);
  }

  /** Exactly the unknown kinds raise, and they raise `ValueError` naming the kind as given. */
  lemma UnknownKindRaises(agentType: string, kwargs: Options)
    ensures CreateAgent(agentType, kwargs).Raised? <==> Lower(agentType) !in KnownKinds
    ensures CreateAgent(agentType, kwargs).Raised? ==>
      CreateAgent(agentType, kwargs).error == ValueError("Unknown agent type: " + agentType)
  {
  }

  /** Without keyword arguments every kind, however it is capitalised, gets the factory's defaults. */
  lemma Defaults(agentType: string)
    ensures Lower(agentType) == "multiastar" ==> CreateAgent(agentType, NoOptions) == Ok(MultiAStar("black", 4))
    ensures Lower(agentType) == "minimax" ==> CreateAgent(agentType, NoOptions) == Ok(Minimax("black", 1))
    ensures Lower(agentType) == "expectimax" ==> CreateAgent(agentType, NoOptions) == Ok(Expectimax("black", 2))
    ensures Lower(agentType) == "alphabeta" ==> CreateAgent(agentType, NoOptions) == Ok(AlphaBeta("black", 4))
    ensures Lower(agentType) == "qlearning" ==> CreateAgent(agentType, NoOptions) == Ok(QLearning("black", 0.2, 0.9, 0.3, 0.1))
    ensures Lower(agentType) == "mcts" ==> CreateAgent(agentType, NoOptions) == Ok(Mcts(100, 10))
  {
  }

  /** A given keyword argument replaces its default, for every kind that reads it. */
  lemma GivenOverridesDefault(agentType: string, kwargs: Options)
    requires CreateAgent(agentType, kwargs).Ok?
    ensures var a := CreateAgent(agentType, kwargs).value;
      ((a.MultiAStar? || a.Minimax? || a.Expectimax? || a.AlphaBeta? || a.QLearning?) && kwargs.color.Some?)
      ==> a.color == kwargs.color.value
    ensures var a := CreateAgent(agentType, kwargs).value;
      ((a.MultiAStar? || a.Minimax? || a.Expectimax? || a.AlphaBeta?) && kwargs.depth.Some?)
      ==> a.depth == kwargs.depth.value
    ensures var a := CreateAgent(agentType, kwargs).value;
      a.Mcts? && kwargs.nSimulations.Some? ==> a.nSimulations == kwargs.nSimulations.value
  {
  }
}
