/**
 * Order requests and the resting-order record of the book.
 * Timestamps are the integers of a steady clock; prices are Money.
 */
module Orders {
  import opened FixedPoint

  datatype OrderDir = Bid | Ask

  /** operator!: the contra side of a direction. */
  function Contra(d: OrderDir): (r: OrderDir)
    ensures r != d
    ensures r == Ask <==> d == Bid
  {
    match d
    case Bid => Ask
    case Ask => Bid
  }

  /** The contra operator is an involution. */
  lemma ContraInvolution(d: OrderDir)
    ensures Contra(Contra(d)) == d
  {
  }

  /** The result of a three-way comparison (std::strong_ordering). */
  datatype Ordering = Less | Equivalent | Greater

  /** <=> on integers; LimitOrderVal <=> is this on the two timestamps. */
  function CompareInt(x: int, y: int): (r: Ordering)
    ensures r == Less <==> x < y
    ensures r == Equivalent <==> x == y
    ensures r == Greater <==> x > y
  {
    if x < y then Less else if x == y then Equivalent else Greater
  }

  /** Lexicographic combination, as std::tie(a, b) <=> std::tie(c, d). */
  function ThenCompare(first: Ordering, second: Ordering): (r: Ordering)
    ensures first != Equivalent ==> r == first
    ensures first == Equivalent ==> r == second
  {
    if first == Equivalent then second else first
  }

  datatype MarketOrderReq = MarketOrderReq(volume: int, agentId: int, orderDir: OrderDir, timestamp: int)

  /** The stored half of a resting order: the price is its key in the book. */
  datatype LimitOrderVal = LimitOrderVal(volume: int, agentId: int, timestamp: int)

  /** std::pair<Money, LimitOrderVal>: a resting order keyed by price. */
  datatype LimitOrder = LimitOrder(price: Money, val: LimitOrderVal)

  datatype LimitOrderReq = LimitOrderReq(volume: int, agentId: int, price: Money, orderDir: OrderDir, timestamp: int)

  datatype CancelOrderReq = CancelOrderReq(volume: int, agentId: int, price: Money, orderDir: OrderDir, loTimestamp: int, timestamp: int)

  /** OrderReq_t: the variant of the three request kinds. */
  datatype OrderReq = Market(market: MarketOrderReq) | Limit(limit: LimitOrderReq) | Cancel(cancel: CancelOrderReq)

  /** MarketOrderReq <=>: by timestamp only. */
  function CompareMarket(m1: MarketOrderReq, m2: MarketOrderReq): (r: Ordering)
    ensures r == Less <==> m1.timestamp < m2.timestamp
    ensures r == Equivalent <==> m1.timestamp == m2.timestamp
  {
    CompareInt(m1.timestamp, m2.timestamp)
  }

  /** MarketOrderReq ==: by agent id only, so requests that differ in volume, direction or timestamp alone are equal. */
  function MarketEq(m1: MarketOrderReq, m2: MarketOrderReq): (r: bool)
    ensures r <==> m1.(volume := m2.volume, orderDir := m2.orderDir, timestamp := m2.timestamp) == m2
  {
    m1.agentId == m2.agentId
  }

  /** The ordering of market requests depends on nothing but their timestamps. */
  lemma CompareMarketOnlyTimestamp(m1: MarketOrderReq, m2: MarketOrderReq, n1: MarketOrderReq, n2: MarketOrderReq)
    requires m1.timestamp == n1.timestamp && m2.timestamp == n2.timestamp
    ensures CompareMarket(m1, m2) == CompareMarket(n1, n2)
  {
  }

  /**
   * Equality of market requests depends on nothing but the agent, so it
   * disagrees with their ordering: two requests of one agent at different
   * times are == and yet one is before the other.
   */
  lemma MarketEqIgnoresTimestamp(m1: MarketOrderReq, m2: MarketOrderReq)
    requires m1.agentId == m2.agentId && m1.timestamp < m2.timestamp
    ensures MarketEq(m1, m2) && CompareMarket(m1, m2) == Less
  {
  }

  /**
   * LimitOrderReq <=>: lexicographic on (timestamp, price). Money has no
   * ordering of its own in the source; prices, all at the Money scale, are
   * ordered by mantissa.
   */
  function CompareLimitReq(r1: LimitOrderReq, r2: LimitOrderReq): (r: Ordering)
    ensures r == Less <==> r1.timestamp < r2.timestamp || (r1.timestamp == r2.timestamp && r1.price.mant < r2.price.mant)
    ensures r == Greater <==> r1.timestamp > r2.timestamp || (r1.timestamp == r2.timestamp && r1.price.mant > r2.price.mant)
  {
    ThenCompare(CompareInt(r1.timestamp, r2.timestamp), CompareInt(r1.price.mant, r2.price.mant))
  }

  /** LimitOrderReq ==: timestamp and price match, so requests that differ in volume, agent or direction alone are equal. */
  function LimitReqEq(r1: LimitOrderReq, r2: LimitOrderReq): (r: bool)
    ensures r <==> r1.(volume := r2.volume, agentId := r2.agentId, orderDir := r2.orderDir) == r2
  {
    r1.timestamp == r2.timestamp && r1.price == r2.price
  }

  /**
   * For limit requests, == and <=> agree: two requests are == exactly when
   * neither is before the other, whatever their volume, agent and direction.
   */
  lemma LimitReqEqIffEquivalent(r1: LimitOrderReq, r2: LimitOrderReq)
    ensures LimitReqEq(r1, r2) <==> CompareLimitReq(r1, r2) == Equivalent
    ensures LimitReqEq(r1, r2) <==> r1.timestamp == r2.timestamp && r1.price.mant == r2.price.mant
  {
  }

  /** to_full: the resting record of a limit request, keyed by its price; the direction is dropped. */
  function ToFull(req: LimitOrderReq): (lo: LimitOrder)
    ensures lo.price == req.price
    ensures lo.val.volume == req.volume && lo.val.agentId == req.agentId && lo.val.timestamp == req.timestamp
  {
    LimitOrder(req.price, LimitOrderVal(req.volume, req.agentId, req.timestamp))
  }

  /** The request a resting record came from, once its side is known. */
  function FromFull(lo: LimitOrder, dir: OrderDir): (req: LimitOrderReq)
  {
    LimitOrderReq(lo.val.volume, lo.val.agentId, lo.price, dir, lo.val.timestamp)
  }

  /** to_full loses nothing but the direction: the record and the side give the request back. */
  lemma ToFullRoundTrip(req: LimitOrderReq)
    ensures FromFull(ToFull(req), req.orderDir) == req
  {
  }

  /** Two requests have the same record exactly when they differ at most in direction. */
  lemma ToFullSameIffSameButDirection(r1: LimitOrderReq, r2: LimitOrderReq)
    ensures ToFull(r1) == ToFull(r2) <==> r1.(orderDir := r2.orderDir) == r2
  {
  }

  /** Money{500} is five whole units: Fixed<0>{5}. */
  lemma MoneyFiveUnits()
    ensures Equal(Cents(500), Fixed(0, 5))
  {
    MoneyWholeUnits(5);
  }
}
