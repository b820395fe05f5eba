/**
 * The exchange tick: collect every agent's requests, apply them in order
 * (a limit request rests in the book, a market request is matched and its
 * transactions settled at once, a cancel request does nothing), then clear
 * the queue. Settlement finds both parties by id and moves the
 * transaction's price and volume between them.
 *
 * The pure part states a tick over values: the two book sides and a ledger
 * of every agent's capital (in cents) and shares, indexed like the agent
 * list. The Exchange class performs the tick on the book and agent objects
 * and is proved to end where the pure tick ends.
 */
module Exchanges {
  import opened Wrappers
  import opened FixedPoint
  import opened Orders
  import opened Books
  import opened Matching
  import opened Agents

  /** find_agent: the position of the first agent with this id, if any. */
  function FindAgent(ids: seq<int>, id: int): (r: Option<nat>)
    ensures r.None? <==> id !in ids
    ensures r.Some? ==> r.value < |ids| && ids[r.value] == id
    ensures r.Some? ==> forall j :: 0 <= j < r.value ==> ids[j] != id
  {
    if ids == [] then None
    else if ids[0] == id then Some(0)
    else
      match FindAgent(ids[1..], id)
      case None => None
      case Some(k) => Some(k + 1)
  }

  /** The ids of the agents, in vector order. */
  function Ids(agents: seq<Agent>): (ids: seq<int>)
    ensures |ids| == |agents|
    ensures forall i :: 0 <= i < |agents| ==> ids[i] == agents[i].id
  {
    seq(|agents|, i requires 0 <= i < |agents| => agents[i].id)
  }

  function Sum(xs: seq<int>): int
  {
    if xs == [] then 0 else xs[0] + Sum(xs[1..])
  }

  lemma {:induction false} SumUpdate(xs: seq<int>, i: nat, v: int)
    requires i < |xs|
    ensures Sum(xs[i := v]) == Sum(xs) - xs[i] + v
  {
    if i > 0 {
      SumUpdate(xs[1..], i - 1, v);
      assert xs[i := v][1..] == xs[1..][i - 1 := v];
    }
  }

  /** Move d from position from to position to (subtract first, then add). */
  function Transfer(xs: seq<int>, from: nat, to: nat, d: int): (ys: seq<int>)
    requires from < |xs| && to < |xs|
    ensures |ys| == |xs|
    ensures forall i :: 0 <= i < |xs| && i != from && i != to ==> ys[i] == xs[i]
    ensures from != to ==> ys[from] == xs[from] - d && ys[to] == xs[to] + d
    ensures from == to ==> ys == xs
  {
    var ys := xs[from := xs[from] - d];
    ys[to := ys[to] + d]
  }

  /** A transfer moves value between positions and creates or destroys none. */
  lemma {:induction false} TransferConserves(xs: seq<int>, from: nat, to: nat, d: int)
    requires from < |xs| && to < |xs|
    ensures Sum(Transfer(xs, from, to, d)) == Sum(xs)
  {
    var ys := xs[from := xs[from] - d];
    SumUpdate(xs, from, xs[from] - d);
    SumUpdate(ys, to, ys[to] + d);
    assert Transfer(xs, from, to, d) == ys[to := ys[to] + d];
  }

  /** Every agent's capital (as a count of cents) and shares, in vector order. */
  datatype Ledger = Ledger(capital: seq<int>, shares: seq<int>)

  /** The ledger has one entry per agent. */
  predicate LedgerFits(ids: seq<int>, l: Ledger)
  {
    |l.capital| == |ids| && |l.shares| == |ids|
  }

  /** The outcome of settling: whether it went through, and the ledger it leaves. */
  datatype Settled = Settled(ok: bool, ledger: Ledger)

  /**
   * execute: when both the asker and the bidder are found, the asker sells
   * (shares down by the volume, capital up by the price field) and the
   * bidder buys (the reverse); otherwise the program terminates, having
   * changed nothing.
   */
  function ExecuteSpec(ids: seq<int>, l: Ledger, t: TransactionRequest): (r: Settled)
    requires LedgerFits(ids, l)
    ensures LedgerFits(ids, r.ledger)
    ensures r.ok <==> t.askerId in ids && t.bidderId in ids
    ensures !r.ok ==> r.ledger == l
  {
    var asker := FindAgent(ids, t.askerId);
    var bidder := FindAgent(ids, t.bidderId);
    if asker.Some? && bidder.Some? then
      Settled(true, Ledger(Transfer(l.capital, bidder.value, asker.value, t.price.mant),
                           Transfer(l.shares, asker.value, bidder.value, t.volume)))
    else Settled(false, l)
  }

  /**
   * A settled trade between two different agents: the first agent with the
   * asker's id gains the price and loses the volume, the first with the
   * bidder's id the reverse, and every other agent is untouched. When both
   * ids name one agent, that agent ends as it was.
   */
  lemma {:induction false} ExecuteEffects(ids: seq<int>, l: Ledger, t: TransactionRequest)
    requires LedgerFits(ids, l) && t.askerId in ids && t.bidderId in ids
    ensures var r := ExecuteSpec(ids, l, t).ledger;
      var a, b := FindAgent(ids, t.askerId).value, FindAgent(ids, t.bidderId).value;
      (a != b ==>
        r.capital[a] == l.capital[a] + t.price.mant && r.capital[b] == l.capital[b] - t.price.mant &&
        r.shares[a] == l.shares[a] - t.volume && r.shares[b] == l.shares[b] + t.volume) &&
      (forall i :: 0 <= i < |ids| && i != a && i != b ==> r.capital[i] == l.capital[i] && r.shares[i] == l.shares[i]) &&
      (t.askerId == t.bidderId ==> r == l)
  {
  }

  /** Settling one transaction keeps the total capital and the total shares. */
  lemma {:induction false} ExecuteConserves(ids: seq<int>, l: Ledger, t: TransactionRequest)
    requires LedgerFits(ids, l)
    ensures Sum(ExecuteSpec(ids, l, t).ledger.capital) == Sum(l.capital)
    ensures Sum(ExecuteSpec(ids, l, t).ledger.shares) == Sum(l.shares)
  {
    var asker := FindAgent(ids, t.askerId);
    var bidder := FindAgent(ids, t.bidderId);
    if asker.Some? && bidder.Some? {
      TransferConserves(l.capital, bidder.value, asker.value, t.price.mant);
      TransferConserves(l.shares, asker.value, bidder.value, t.volume);
    }
  }

  /** Settling the first n transactions in order, stopping at the first that cannot be settled. */
  function SettleFirst(ids: seq<int>, l: Ledger, ts: seq<TransactionRequest>, n: nat): (r: Settled)
    requires LedgerFits(ids, l) && n <= |ts|
    ensures LedgerFits(ids, r.ledger)
  {
    if n == 0 then Settled(true, l)
    else
      var r := SettleFirst(ids, l, ts, n - 1);
      if !r.ok then r else ExecuteSpec(ids, r.ledger, ts[n - 1])
  }

  /** Settling transactions, completely or not, keeps the total capital and the total shares. */
  lemma {:induction false} SettleConserves(ids: seq<int>, l: Ledger, ts: seq<TransactionRequest>, n: nat)
    requires LedgerFits(ids, l) && n <= |ts|
    ensures Sum(SettleFirst(ids, l, ts, n).ledger.capital) == Sum(l.capital)
    ensures Sum(SettleFirst(ids, l, ts, n).ledger.shares) == Sum(l.shares)
  {
    if n > 0 {
      SettleConserves(ids, l, ts, n - 1);
      var r := SettleFirst(ids, l, ts, n - 1);
      if r.ok {
        ExecuteConserves(ids, r.ledger, ts[n - 1]);
      }
    }
  }

  /** What a tick changes: the two book sides and the ledger. */
  datatype Venue = Venue(bids: seq<LimitOrder>, asks: seq<LimitOrder>, ledger: Ledger)

  function SideOf(v: Venue, dir: OrderDir): seq<LimitOrder>
  {
    if dir == Bid then v.bids else v.asks
  }

  function WithSide(v: Venue, dir: OrderDir, s: seq<LimitOrder>): Venue
  {
    if dir == Bid then v.(bids := s) else v.(asks := s)
  }

  /** Both sides in container order and one ledger entry per agent. */
  predicate VenueOk(ids: seq<int>, v: Venue)
  {
    SortedSide(Bid, v.bids) && SortedSide(Ask, v.asks) && LedgerFits(ids, v.ledger)
  }

  /**
   * How applying requests ends: all applied; the program terminated (the
   * matching system's assert on the volume, or execute's bare throw); or a
   * FIFO market order met a cached best level that cannot supply its volume
   * and was refused with the venue unchanged (the corrected matching; the
   * loop as written is FifoAsWritten).
   */
  datatype Outcome = Completed | Terminated | Rejected

  datatype Applied = Applied(outcome: Outcome, venue: Venue)

  /**
   * One queued request, applied to the venue with the book's cached
   * snapshot st. A cancel request does nothing; a limit request inserts its
   * record on its side; a market request is matched and every transaction
   * it yields is settled before the next request.
   */
  ghost function ApplySpec(kind: MatchingType, ids: seq<int>, st: State, v: Venue, req: OrderReq): (r: Applied)
    requires VenueOk(ids, v)
    ensures VenueOk(ids, r.venue)
    ensures r.outcome != Completed ==> req.Market?
  {
    match req
    case Cancel(_) => Applied(Completed, v)
    case Limit(lor) =>
      Applied(Completed, WithSide(v, lor.orderDir, InsertSorted(lor.orderDir, SideOf(v, lor.orderDir), ToFull(lor))))
    case Market(mor) => MarketSpec(kind, ids, st, v, mor)
  }

  /**
   * A market request: a non-positive volume terminates; only FIFO matching
   * trades; a FIFO order whose cached best level cannot supply its volume is
   * refused; otherwise the order takes its volume from the best level in
   * time order and each resulting transaction is settled in turn.
   */
  ghost function MarketSpec(kind: MatchingType, ids: seq<int>, st: State, v: Venue, mor: MarketOrderReq): (r: Applied)
    requires VenueOk(ids, v)
    ensures VenueOk(ids, r.venue)
  {
    if mor.volume <= 0 then Applied(Terminated, v)
    else if kind != Fifo then Applied(Completed, v)
    else
      var dir := MatchSide(mor);
      var cached := StateBestPrice(st, dir);
      if !ReadyAt(cached, SideOf(v, dir), mor.volume) then Applied(Rejected, v)
      else
        var f := FifoRun(SideOf(v, dir), cached.value, mor.volume);
        FifoRunSorted(dir, SideOf(v, dir), cached.value, mor.volume);
        var ts := Transactions(mor, cached.value, f.taken);
        var s := SettleFirst(ids, v.ledger, ts, |ts|);
        Applied(if s.ok then Completed else Terminated, WithSide(v, dir, f.side).(ledger := s.ledger))
  }

  /** The outcome of a queue so far, acc, after one more request that ends o: a termination wins, and a refusal is remembered. */
  function Worse(acc: Outcome, o: Outcome): (r: Outcome)
    ensures r.Terminated? <==> acc.Terminated? || o.Terminated?
    ensures r.Completed? <==> acc.Completed? && o.Completed?
  {
    if acc.Terminated? || o.Terminated? then Terminated
    else if acc.Rejected? || o.Rejected? then Rejected
    else Completed
  }

  /**
   * The first n queued requests applied in order. A refused market order
   * leaves the venue as it was and the next request is applied; a
   * termination ends the program, so no later request is applied. The
   * outcome is the worst seen: Terminated, else Rejected when some order was
   * refused, else Completed.
   */
  ghost function ProcessFirst(kind: MatchingType, ids: seq<int>, st: State, v: Venue, reqs: seq<OrderReq>, n: nat): (r: Applied)
    requires VenueOk(ids, v) && n <= |reqs|
    ensures VenueOk(ids, r.venue)
    decreases n, 2
  {
    if n == 0 then Applied(Completed, v) else ProcessLast(kind, ids, st, v, reqs, n)
  }

  /** The first n > 0 requests: as the first n - 1 left it if they terminated, otherwise with request n - 1 applied. */
  ghost function ProcessLast(kind: MatchingType, ids: seq<int>, st: State, v: Venue, reqs: seq<OrderReq>, n: nat): (r: Applied)
    requires VenueOk(ids, v) && 0 < n <= |reqs|
    ensures VenueOk(ids, r.venue)
    decreases n, 1
  {
    var r := ProcessFirst(kind, ids, st, v, reqs, n - 1);
    if r.outcome == Terminated then r else ApplyLast(kind, ids, st, v, reqs, n)
  }

  /** Request n - 1 applied where the first n - 1 left the venue, short of termination; the outcome is the worse of the two. */
  ghost function ApplyLast(kind: MatchingType, ids: seq<int>, st: State, v: Venue, reqs: seq<OrderReq>, n: nat): (r: Applied)
    requires VenueOk(ids, v) && 0 < n <= |reqs|
    requires ProcessFirst(kind, ids, st, v, reqs, n - 1).outcome != Terminated
    ensures VenueOk(ids, r.venue)
    decreases n, 0
  {
    var r := ProcessFirst(kind, ids, st, v, reqs, n - 1);
    var a := ApplySpec(kind, ids, st, r.venue, reqs[n - 1]);
    Applied(Worse(r.outcome, a.outcome), a.venue)
  }

  /** No request applied leaves the venue as it was. */
  lemma ProcessNone(kind: MatchingType, ids: seq<int>, st: State, v: Venue, reqs: seq<OrderReq>)
    requires VenueOk(ids, v)
    ensures ProcessFirst(kind, ids, st, v, reqs, 0) == Applied(Completed, v)
  {
  }

  /** Once the first n requests end r by a termination, no later request is applied. */
  lemma {:induction false} ProcessStops(kind: MatchingType, ids: seq<int>, st: State, v: Venue, reqs: seq<OrderReq>, n: nat, m: nat, r: Applied)
    requires VenueOk(ids, v) && n <= m <= |reqs|
    requires ProcessFirst(kind, ids, st, v, reqs, n) == r && r.outcome == Terminated
    ensures ProcessFirst(kind, ids, st, v, reqs, m) == r
  {
    if m > n {
      ProcessStops(kind, ids, st, v, reqs, n, m - 1, r);
    }
  }

  /**
   * What applying a market order comes to, given the side matching leaves,
   * the transactions it yields and the result of settling them: the venue
   * w that has that side, the other side as before and the settled ledger.
   */
  lemma {:induction false} MarketResult(kind: MatchingType, ids: seq<int>, st: State, v: Venue, mor: MarketOrderReq,
                     sideAfter: seq<LimitOrder>, trans: seq<TransactionRequest>, s: Settled, w: Venue)
    requires VenueOk(ids, v) && mor.volume > 0
    requires kind == Fifo ==> ReadyAt(StateBestPrice(st, MatchSide(mor)), SideOf(v, MatchSide(mor)), mor.volume)
    requires kind == Fifo ==>
      var p := StateBestPrice(st, MatchSide(mor)).value;
      var f := FifoRun(SideOf(v, MatchSide(mor)), p, mor.volume);
      sideAfter == f.side && trans == Transactions(mor, p, f.taken)
    requires kind != Fifo ==> sideAfter == SideOf(v, MatchSide(mor)) && trans == []
    requires s == SettleFirst(ids, v.ledger, trans, |trans|)
    requires SideOf(w, MatchSide(mor)) == sideAfter && SideOf(w, Contra(MatchSide(mor))) == SideOf(v, Contra(MatchSide(mor)))
    requires w.ledger == s.ledger
    ensures MarketSpec(kind, ids, st, v, mor) == Applied(if s.ok then Completed else Terminated, w)
  {
    if kind != Fifo {
      assert w == v;
    } else {
      assert w == WithSide(v, MatchSide(mor), sideAfter).(ledger := s.ledger);
    }
  }

  /**
   * The request loop of run, one pass: if the first i requests ended acc,
   * short of termination, at w and request i leaves a, the first i + 1
   * requests leave a's venue with the worse outcome.
   */
  lemma {:induction false} ProcessStep(kind: MatchingType, ids: seq<int>, st: State, v: Venue, q: seq<OrderReq>, i: nat,
                                       acc: Outcome, w: Venue, a: Applied)
    requires VenueOk(ids, v) && i < |q| && acc != Terminated
    requires ProcessFirst(kind, ids, st, v, q, i) == Applied(acc, w)
    requires a == ApplySpec(kind, ids, st, w, q[i])
    ensures ProcessFirst(kind, ids, st, v, q, i + 1) == Applied(Worse(acc, a.outcome), a.venue)
  {
    assert ProcessFirst(kind, ids, st, v, q, i + 1) == ApplyLast(kind, ids, st, v, q, i + 1);
  }

  /** Applying one request keeps the total capital and the total shares. */
  lemma {:induction false} ApplyConserves(kind: MatchingType, ids: seq<int>, st: State, v: Venue, req: OrderReq)
    requires VenueOk(ids, v)
    ensures Sum(ApplySpec(kind, ids, st, v, req).venue.ledger.capital) == Sum(v.ledger.capital)
    ensures Sum(ApplySpec(kind, ids, st, v, req).venue.ledger.shares) == Sum(v.ledger.shares)
  {
    if req.Market? && req.market.volume > 0 && kind == Fifo {
      var mor := req.market;
      var dir := MatchSide(mor);
      var cached := StateBestPrice(st, dir);
      if ReadyAt(cached, SideOf(v, dir), mor.volume) {
        var f := FifoRun(SideOf(v, dir), cached.value, mor.volume);
        var ts := Transactions(mor, cached.value, f.taken);
        SettleConserves(ids, v.ledger, ts, |ts|);
      }
    }
  }

  /**
   * A tick neither creates nor destroys money or shares: however far it
   * gets, the total capital and the total shares over all agents are those
   * it started with.
   */
  lemma {:induction false} ProcessConserves(kind: MatchingType, ids: seq<int>, st: State, v: Venue, reqs: seq<OrderReq>, n: nat)
    requires VenueOk(ids, v) && n <= |reqs|
    ensures Sum(ProcessFirst(kind, ids, st, v, reqs, n).venue.ledger.capital) == Sum(v.ledger.capital)
    ensures Sum(ProcessFirst(kind, ids, st, v, reqs, n).venue.ledger.shares) == Sum(v.ledger.shares)
  {
    if n > 0 {
      ProcessConserves(kind, ids, st, v, reqs, n - 1);
      var r := ProcessFirst(kind, ids, st, v, reqs, n - 1);
      if r.outcome != Terminated {
        assert ProcessFirst(kind, ids, st, v, reqs, n) == ApplyLast(kind, ids, st, v, reqs, n);
        ApplyConserves(kind, ids, st, r.venue, reqs[n - 1]);
      }
    }
  }

  /**
   * A limit request completes, leaves the ledger alone and adds exactly its
   * full record to the side its direction names; the other side is unchanged.
   */
  lemma {:induction false} LimitApplied(kind: MatchingType, ids: seq<int>, st: State, w: Venue, lor: LimitOrderReq)
    requires VenueOk(ids, w)
    ensures var u := ApplySpec(kind, ids, st, w, Limit(lor));
      u.outcome == Completed && u.venue.ledger == w.ledger &&
      multiset(SideOf(u.venue, lor.orderDir)) == multiset(SideOf(w, lor.orderDir)) + multiset{ToFull(lor)} &&
      SideOf(u.venue, Contra(lor.orderDir)) == SideOf(w, Contra(lor.orderDir))
  {
  }

  /** The requests the agents generate, concatenated in agent order. */
  function Collected(agents: seq<Agent>, t: int): (reqs: seq<OrderReq>)
    ensures |reqs| == 4 * |agents|
  {
    if agents == [] then [] else Collected(agents[..|agents| - 1], t) + agents[|agents| - 1].GenerateOrder(t)
  }

  /** Request 4i + k of the queue is request k of agent i. */
  lemma {:induction false} CollectedInAgentOrder(agents: seq<Agent>, t: int, i: nat, k: nat)
    requires i < |agents| && k < 4
    ensures Collected(agents, t)[4 * i + k] == agents[i].GenerateOrder(t)[k]
  {
    var n := |agents| - 1;
    if i < n {
      CollectedInAgentOrder(agents[..n], t, i, k);
      assert agents[..n][i] == agents[i];
    }
  }

  /** Every agent's capital, in cents, in vector order. */
  function Capitals(agents: seq<Agent>): (r: seq<int>)
    reads agents
    ensures |r| == |agents|
    ensures forall i :: 0 <= i < |agents| ==> r[i] == agents[i].capital.mant
  {
    seq(|agents|, i reads agents requires 0 <= i < |agents| => agents[i].capital.mant)
  }

  /** Every agent's shares, in vector order. */
  function Shares(agents: seq<Agent>): (r: seq<int>)
    reads agents
    ensures |r| == |agents|
    ensures forall i :: 0 <= i < |agents| ==> r[i] == agents[i].shares
  {
    seq(|agents|, i reads agents requires 0 <= i < |agents| => agents[i].shares)
  }

  class Exchange {
    const book: OrderBook
    const agents: seq<Agent>
    const matchingSys: MatchingSystem
    /** m_current_order_requests. */
    var requests: seq<OrderReq>

    ghost predicate Valid()
      reads book
    {
      book.Valid() && DistinctAgents(agents)
    }

    function LedgerOf(): Ledger
      reads agents
    {
      Ledger(Capitals(agents), Shares(agents))
    }

    function View(): Venue
      reads book, agents
    {
      Venue(book.bids, book.asks, LedgerOf())
    }

    /** The members default-constructed: an empty book whose first snapshot is initial, as the book's own is indeterminate. */
    constructor (agents: seq<Agent>, kind: MatchingType, initial: State)
      requires DistinctAgents(agents)
      ensures Valid() && fresh(book)
      ensures this.agents == agents && matchingSys.kind == kind && requests == []
      ensures book.bids == [] && book.asks == [] && book.state == initial
    {
      book := new OrderBook(initial);
      this.agents := agents;
      matchingSys := new MatchingSystem(kind);
      requests := [];
    }

    /** execute_transaction: the asker sells, then the bidder buys, the same volume for the same total. */
    method ExecuteTransaction(bidder: Agent, asker: Agent, volume: int, totalPrice: Money)
      modifies bidder, asker
      ensures bidder != asker ==>
        asker.shares == old(asker.shares) - volume && asker.capital.mant == old(asker.capital.mant) + totalPrice.mant &&
        bidder.shares == old(bidder.shares) + volume && bidder.capital.mant == old(bidder.capital.mant) - totalPrice.mant
      ensures bidder == asker ==> bidder.shares == old(bidder.shares) && bidder.capital == old(bidder.capital)
    {
      asker.Sell(volume, totalPrice);
      bidder.Buy(volume, totalPrice);
      if bidder == asker {
        SubAddCancelMoney(old(bidder.capital), totalPrice);
      }
    }

    /** execute: settle one transaction between the agents its ids name; false where the source terminates. */
    method Execute(t: TransactionRequest) returns (ok: bool)
      requires DistinctAgents(agents)
      modifies agents
      ensures var r := ExecuteSpec(Ids(agents), old(LedgerOf()), t);
        ok == r.ok && LedgerOf() == r.ledger
    {
      ghost var l0 := LedgerOf();
      var asker := FindAgent(Ids(agents), t.askerId);
      var bidder := FindAgent(Ids(agents), t.bidderId);
      if asker.Some? && bidder.Some? {
        var a, b := asker.value, bidder.value;
        agents[a].Sell(t.volume, t.price);
        agents[b].Buy(t.volume, t.price);
        ok := true;
        ghost var r := ExecuteSpec(Ids(agents), l0, t).ledger;
        forall i | 0 <= i < |agents|
          ensures Capitals(agents)[i] == r.capital[i] && Shares(agents)[i] == r.shares[i]
        {
          if i != a && i != b {
            assert agents[i] != agents[a] && agents[i] != agents[b];
          }
        }
      } else {
        ok := false;
      }
    }

    /** The loop over a matching result: execute each transaction in order, stopping at the first failure. */
    method Settle(ts: seq<TransactionRequest>) returns (ok: bool)
      requires DistinctAgents(agents)
      modifies agents
      ensures var r := SettleFirst(Ids(agents), old(LedgerOf()), ts, |ts|);
        ok == r.ok && LedgerOf() == r.ledger
    {
      ghost var l0 := LedgerOf();
      var i := 0;
      ok := true;
      while i < |ts|
        invariant 0 <= i <= |ts| && ok
        invariant SettleFirst(Ids(agents), l0, ts, i) == Settled(true, LedgerOf())
      {
        ok := ExecuteNext(ts, l0, i);
        if !ok {
          return;
        }
        i := i + 1;
        assert SettleFirst(Ids(agents), l0, ts, i) == Settled(true, LedgerOf());
      }
    }

    /** Transaction i of a matching result, executed after the first i settled. */
    method ExecuteNext(ts: seq<TransactionRequest>, ghost l0: Ledger, i: nat) returns (ok: bool)
      requires DistinctAgents(agents) && i < |ts| && LedgerFits(Ids(agents), l0)
      requires SettleFirst(Ids(agents), l0, ts, i) == Settled(true, LedgerOf())
      modifies agents
      ensures SettleFirst(Ids(agents), l0, ts, i + 1) == Settled(ok, LedgerOf())
      ensures !ok ==> SettleFirst(Ids(agents), l0, ts, |ts|) == Settled(ok, LedgerOf())
    {
      ghost var l := LedgerOf();
      ok := Execute(ts[i]);
      SettleStep(Ids(agents), l0, ts, i, l, Settled(ok, LedgerOf()));
    }

    /** One pass of the request loop in run. */
    method Apply(req: OrderReq) returns (outcome: Outcome)
      requires Valid()
      modifies book, agents
      ensures Valid() && book.state == old(book.state)
      ensures var r := ApplySpec(matchingSys.kind, Ids(agents), old(book.state), old(View()), req);
        outcome == r.outcome && View() == r.venue
    {
      match req
      case Cancel(_) =>
        outcome := Completed;
      case Limit(lor) =>
        ghost var v := View();
        book.Insert(lor.orderDir, ToFull(lor));
        outcome := Completed;
        assert LedgerOf() == v.ledger;
        assert View() == WithSide(v, lor.orderDir, InsertSorted(lor.orderDir, SideOf(v, lor.orderDir), ToFull(lor)));
      case Market(mor) =>
        outcome := ApplyMarket(mor);
    }

    /** The market-order branch of run's visitor: match, then settle every transaction at once. */
    method ApplyMarket(mor: MarketOrderReq) returns (outcome: Outcome)
      requires Valid()
      modifies book, agents
      ensures Valid() && book.state == old(book.state)
      ensures var r := MarketSpec(matchingSys.kind, Ids(agents), old(book.state), old(View()), mor);
        outcome == r.outcome && View() == r.venue
    {
      if mor.volume <= 0 {
        outcome := Terminated;
      } else {
        outcome := MatchAndSettle(mor);
      }
    }

    /** A market order with a positive volume: match it; if the matching system accepts it, settle every transaction in order. */
    method MatchAndSettle(mor: MarketOrderReq) returns (outcome: Outcome)
      requires Valid() && mor.volume > 0
      modifies book, agents
      ensures Valid() && book.state == old(book.state)
      ensures var r := MarketSpec(matchingSys.kind, Ids(agents), old(book.state), old(View()), mor);
        outcome == r.outcome && View() == r.venue
    {
      ghost var v0 := View();
      var trans, filled := matchingSys.Match(mor, book);
      if !filled {
        outcome := Rejected;
        return;
      }
      ghost var sideAfter := book.Side(MatchSide(mor));
      var ok := Settle(trans);
      outcome := if ok then Completed else Terminated;
      MarketResult(matchingSys.kind, Ids(agents), book.state, v0, mor, sideAfter, trans,
        SettleFirst(Ids(agents), v0.ledger, trans, |trans|), View());
    }

    /** The first loop of run: every agent's generated requests are pushed onto the queue, in agent order. */
    method Collect(t: int)
      modifies this
      ensures requests == old(requests) + Collected(agents, t)
    {
      var i := 0;
      while i < |agents|
        invariant 0 <= i <= |agents|
        invariant requests == old(requests) + Collected(agents[..i], t)
      {
        assert agents[..i + 1][..i] == agents[..i];
        requests := requests + agents[i].GenerateOrder(t);
        i := i + 1;
      }
      assert agents[..i] == agents;
    }

    /**
     * run: collect the agents' requests (stamped t) behind those already
     * queued, apply them in queue order, and clear the queue. The book and
     * the agents end where the pure tick ends; the queue is cleared unless
     * the tick terminated, and then it keeps every request.
     */
    method Run(t: int) returns (outcome: Outcome)
      requires Valid()
      modifies this, book, agents
      ensures Valid() && book.state == old(book.state)
      ensures var q := old(requests) + Collected(agents, t);
        var r := ProcessFirst(matchingSys.kind, Ids(agents), old(book.state), old(View()), q, |q|);
        outcome == r.outcome && View() == r.venue
      ensures outcome != Terminated ==> requests == []
      ensures outcome == Terminated ==> requests == old(requests) + Collected(agents, t)
    {
      Collect(t);
      outcome := ProcessQueue();
      if outcome != Terminated {
        requests := [];
      }
    }

    /** The second loop of run: apply the queued requests in order, until one terminates. */
    method ProcessQueue() returns (outcome: Outcome)
      requires Valid()
      modifies book, agents
      ensures Valid() && book.state == old(book.state)
      ensures var r := ProcessFirst(matchingSys.kind, Ids(agents), old(book.state), old(View()), requests, |requests|);
        outcome == r.outcome && View() == r.venue
    {
      ghost var kind, ids, st, v0, q := matchingSys.kind, Ids(agents), book.state, View(), requests;
      var i := 0;
      outcome := Completed;
      assert VenueOk(ids, v0);
      ProcessNone(kind, ids, st, v0, q);
      while i < |requests| && outcome != Terminated
        invariant 0 <= i <= |q| && requests == q && VenueOk(ids, v0)
        invariant Valid() && book.state == st
        invariant ProcessFirst(kind, ids, st, v0, q, i) == Applied(outcome, View())
      {
        outcome := ApplyNext(q, v0, i, requests[i], outcome);
        i := i + 1;
      }
      if outcome == Terminated {
        ProcessStops(kind, ids, st, v0, q, i, |q|, Applied(outcome, View()));
      } else {
        assert i == |q|;
      }
    }

    /** Request i of the queue, applied after the first i ended acc short of termination; the result is the worse outcome. */
    method ApplyNext(ghost queue: seq<OrderReq>, ghost v0: Venue, ghost i: nat, req: OrderReq, acc: Outcome) returns (outcome: Outcome)
      requires Valid() && i < |queue| && req == queue[i] && VenueOk(Ids(agents), v0) && acc != Terminated
      requires ProcessFirst(matchingSys.kind, Ids(agents), book.state, v0, queue, i) == Applied(acc, View())
      modifies book, agents
      ensures Valid() && book.state == old(book.state)
      ensures ProcessFirst(matchingSys.kind, Ids(agents), book.state, v0, queue, i + 1) == Applied(outcome, View())
    {
      ghost var w := View();
      var o := Apply(req);
      outcome := Worse(acc, o);
      ProcessStep(matchingSys.kind, Ids(agents), book.state, v0, queue, i, acc, w, Applied(o, View()));
    }
  }

  /**
   * The loop over a matching result, one pass: if the first i transactions
   * settled at l and transaction i yields r, the first i + 1 yield r; and if
   * r failed, the whole list yields r.
   */
  lemma {:induction false} SettleStep(ids: seq<int>, l0: Ledger, ts: seq<TransactionRequest>, i: nat, l: Ledger, r: Settled)
    requires LedgerFits(ids, l0) && i < |ts|
    requires SettleFirst(ids, l0, ts, i) == Settled(true, l)
    requires r == ExecuteSpec(ids, l, ts[i])
    ensures SettleFirst(ids, l0, ts, i + 1) == r
    ensures !r.ok ==> SettleFirst(ids, l0, ts, |ts|) == r
  {
    if !r.ok {
      SettleStops(ids, l0, ts, i + 1, |ts|);
    }
  }

  /** Once a transaction fails, later ones are not settled. */
  lemma {:induction false} SettleStops(ids: seq<int>, l: Ledger, ts: seq<TransactionRequest>, n: nat, m: nat)
    requires LedgerFits(ids, l) && n <= m <= |ts|
    requires !SettleFirst(ids, l, ts, n).ok
    ensures SettleFirst(ids, l, ts, m) == SettleFirst(ids, l, ts, n)
  {
    if m > n {
      SettleStops(ids, l, ts, n, m - 1);
    }
  }

  /** For Money, (c - p) + p == c. */
  lemma {:induction false} SubAddCancelMoney(c: Money, p: Money)
    ensures Add(Sub(c, p), p) == c
  {
    SubAddCancel(c, p);
  }
}
