/**
 * Trading agents: an id fixed at construction, capital in Money and a
 * signed share count. The static id counter of the source is an explicit
 * IdCounter object that every construction draws from.
 */
module Agents {
  import opened FixedPoint
  import opened Orders

  /** The counter behind Agent::new_id: the last id issued (0 before the first). */
  class IdCounter {
    var last: int

    constructor ()
      ensures last == 0
    {
      last := 0;
    }

    /** new_id: pre-increment, so ids are issued as 1, 2, 3, ... */
    method NewId() returns (id: int)
      modifies this
      ensures id == old(last) + 1 && last == id
    {
      last := last + 1;
      id := last;
    }
  }

  class Agent {
    /** m_id, set once by the constructor; get_id reads it. */
    const id: int
    var capital: Money
    var shares: int

    /** Agent(capital): takes the next id, the given capital and no shares. */
    constructor (capital: Money, ids: IdCounter)
      modifies ids
      ensures id == old(ids.last) + 1 && ids.last == id
      ensures this.capital == capital && shares == 0
    {
      var newId := ids.NewId();
      id := newId;
      this.capital := capital;
      shares := 0;
    }

    /** get_id. */
    function GetId(): (r: int)
      ensures r == id
    {
      id
    }

    /** buy: volume more shares, total_price less capital; nothing is bounds-checked. */
    method Buy(volume: int, totalPrice: Money)
      modifies this
      ensures shares == old(shares) + volume
      ensures capital == Sub(old(capital), totalPrice)
      ensures capital.mant == old(capital.mant) - totalPrice.mant
    {
      SameScaleOps(capital, totalPrice);
      shares := shares + volume;
      capital := Sub(capital, totalPrice);
    }

    /** sell: volume fewer shares, total_price more capital; nothing is bounds-checked. */
    method Sell(volume: int, totalPrice: Money)
      modifies this
      ensures shares == old(shares) - volume
      ensures capital == Add(old(capital), totalPrice)
      ensures capital.mant == old(capital.mant) + totalPrice.mant
    {
      SameScaleOps(capital, totalPrice);
      shares := shares - volume;
      capital := Add(capital, totalPrice);
    }

    /**
     * generate_order: the deterministic stub. It ignores the book and
     * returns, all in the agent's name and stamped t: a limit bid of 5 at
     * 0.35, a limit ask of 5 at 0.45, a market bid of 2, a market ask of 2.
     */
    function GenerateOrder(t: int): (reqs: seq<OrderReq>)
      ensures |reqs| == 4
      ensures reqs[0] == Limit(LimitOrderReq(5, id, Cents(35), Bid, t))
      ensures reqs[1] == Limit(LimitOrderReq(5, id, Cents(45), Ask, t))
      ensures reqs[2] == Market(MarketOrderReq(2, id, Bid, t))
      ensures reqs[3] == Market(MarketOrderReq(2, id, Ask, t))
    {
      [ Limit(LimitOrderReq(5, GetId(), Cents(35), Bid, t)),
        Limit(LimitOrderReq(5, GetId(), Cents(45), Ask, t)),
        Market(MarketOrderReq(2, GetId(), Bid, t)),
        Market(MarketOrderReq(2, GetId(), Ask, t)) ]
    }
  }

  /**
   * Every request generate_order returns carries the agent's id and a
   * positive volume, and its limit bid is priced below its limit ask.
   */
  lemma GenerateOrderWellFormed(a: Agent, t: int)
    ensures forall r :: r in a.GenerateOrder(t) ==> AgentOf(r) == a.id && VolumeOf(r) > 0
    ensures a.GenerateOrder(t)[0].limit.price.mant < a.GenerateOrder(t)[1].limit.price.mant
  {
    var reqs := a.GenerateOrder(t);
    forall r | r in reqs
      ensures AgentOf(r) == a.id && VolumeOf(r) > 0
    {
      var i :| 0 <= i < 4 && reqs[i] == r;
    }
  }

  /** The agent a request is made in the name of. */
  function AgentOf(r: OrderReq): int
  {
    match r
    case Market(m) => m.agentId
    case Limit(l) => l.agentId
    case Cancel(c) => c.agentId
  }

  /** The volume a request asks for. */
  function VolumeOf(r: OrderReq): int
  {
    match r
    case Market(m) => m.volume
    case Limit(l) => l.volume
    case Cancel(c) => c.volume
  }

  /** A buy followed by a sell of the same volume and total leaves the agent as it was. */
  method BuyThenSell(a: Agent, volume: int, totalPrice: Money)
    modifies a
    ensures a.capital == old(a.capital) && a.shares == old(a.shares)
  {
    a.Buy(volume, totalPrice);
    a.Sell(volume, totalPrice);
    SubAddCancel(old(a.capital), totalPrice);
  }

  /**
   * Constructing n agents in turn from one counter gives them the ids
   * last + 1, ..., last + n: consecutive, and so pairwise distinct.
   */
  method MakeAgents(n: nat, capital: Money, ids: IdCounter) returns (agents: seq<Agent>)
    modifies ids
    ensures |agents| == n && ids.last == old(ids.last) + n
    ensures forall i :: 0 <= i < n ==> agents[i].id == old(ids.last) + i + 1
    ensures forall i :: 0 <= i < n ==> agents[i].capital == capital && agents[i].shares == 0
    ensures forall i :: 0 <= i < n ==> fresh(agents[i])
    ensures DistinctIds(agents) && DistinctAgents(agents)
  {
    agents := [];
    while |agents| < n
      invariant |agents| <= n && ids.last == old(ids.last) + |agents|
      invariant forall i :: 0 <= i < |agents| ==> agents[i].id == old(ids.last) + i + 1
      invariant forall i :: 0 <= i < |agents| ==> agents[i].capital == capital && agents[i].shares == 0
      invariant forall i :: 0 <= i < |agents| ==> fresh(agents[i])
    {
      var a := new Agent(capital, ids);
      agents := agents + [a];
    }
    IdsDistinguishAgents(agents);
  }

  /** No two agents of the list have the same id. */
  predicate DistinctIds(agents: seq<Agent>)
  {
    forall i, j :: 0 <= i < j < |agents| ==> agents[i].id != agents[j].id
  }

  /** No agent object appears twice in the list. */
  predicate DistinctAgents(agents: seq<Agent>)
  {
    forall i, j :: 0 <= i < j < |agents| ==> agents[i] != agents[j]
  }

  /** Agents with different ids are different objects. */
  lemma IdsDistinguishAgents(agents: seq<Agent>)
    requires DistinctIds(agents)
    ensures DistinctAgents(agents)
  {
  }

  /** Two agents constructed one after the other from one counter never share an id. */
  method TwoAgents(capital: Money, ids: IdCounter) returns (a: Agent, b: Agent)
    modifies ids
    ensures a.id == old(ids.last) + 1 && b.id == old(ids.last) + 2
    ensures a.id != b.id && a.shares == 0 && b.shares == 0
  {
    a := new Agent(capital, ids);
    b := new Agent(capital, ids);
  }
}
