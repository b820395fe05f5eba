/**
 * The order book: two price-keyed multimaps of resting orders, the bid
 * side ordered from the highest price and the ask side from the lowest,
 * and a cached snapshot of derived values. Each side is the sequence of
 * its (price, record) pairs in container order; among equal prices the
 * multimap keeps insertion order. All prices are Money, so they are
 * compared by mantissa.
 */
module Books {
  import opened Wrappers
  import opened FixedPoint
  import opened Orders

  /** Price p sorts strictly before price q on side dir (std::greater for bids, std::less for asks). */
  predicate Before(dir: OrderDir, p: Money, q: Money)
  {
    if dir == Bid then p.mant > q.mant else p.mant < q.mant
  }

  /** The side is in its container's order. */
  predicate SortedSide(dir: OrderDir, s: seq<LimitOrder>)
  {
    forall i, j :: 0 <= i < j < |s| ==> !Before(dir, s[j].price, s[i].price)
  }

  /** The number of records on a side at exactly price p. */
  function CountAt(s: seq<LimitOrder>, p: Money): (n: nat)
    ensures n <= |s|
  {
    if s == [] then 0 else CountAt(s[..|s| - 1], p) + (if s[|s| - 1].price == p then 1 else 0)
  }

  lemma {:induction false} CountAtAppend(s: seq<LimitOrder>, t: seq<LimitOrder>, p: Money)
    ensures CountAt(s + t, p) == CountAt(s, p) + CountAt(t, p)
  {
    if t != [] {
      assert (s + t)[..|s + t| - 1] == s + t[..|t| - 1];
      CountAtAppend(s, t[..|t| - 1], p);
    } else {
      assert s + t == s;
    }
  }

  /** The side without the record at position pos: what multimap::erase leaves. */
  function RemoveAt(s: seq<LimitOrder>, pos: nat): (r: seq<LimitOrder>)
    requires pos < |s|
    ensures |r| == |s| - 1
    ensures forall i :: 0 <= i < pos ==> r[i] == s[i]
    ensures forall i :: pos <= i < |r| ==> r[i] == s[i + 1]
  {
    s[..pos] + s[pos + 1..]
  }

  /** Erasing one record keeps the side in order and takes one record, and only that one, from its price. */
  lemma {:induction false} RemoveAtProperties(dir: OrderDir, s: seq<LimitOrder>, pos: nat)
    requires pos < |s|
    ensures SortedSide(dir, s) ==> SortedSide(dir, RemoveAt(s, pos))
    ensures multiset(RemoveAt(s, pos)) + multiset{s[pos]} == multiset(s)
    ensures CountAt(RemoveAt(s, pos), s[pos].price) == CountAt(s, s[pos].price) - 1
    ensures forall p :: p != s[pos].price ==> CountAt(RemoveAt(s, pos), p) == CountAt(s, p)
  {
    assert s == s[..pos] + [s[pos]] + s[pos + 1..];
    assert RemoveAt(s, pos) == s[..pos] + s[pos + 1..];
    forall p
      ensures CountAt(s, p) == CountAt(RemoveAt(s, pos), p) + CountAt([s[pos]], p)
    {
      CountAtAppend(s[..pos] + [s[pos]], s[pos + 1..], p);
      CountAtAppend(s[..pos], [s[pos]], p);
      CountAtAppend(s[..pos], s[pos + 1..], p);
      assert CountAt([s[pos]], p) == CountAt([], p) + (if s[pos].price == p then 1 else 0);
    }
  }

  /** The first position whose price sorts after p: multimap's upper bound, where insert puts a new key p. */
  function UpperBound(dir: OrderDir, s: seq<LimitOrder>, p: Money): (k: nat)
    requires SortedSide(dir, s)
    ensures k <= |s|
    ensures forall i :: 0 <= i < k ==> !Before(dir, p, s[i].price)
    ensures forall i :: k <= i < |s| ==> Before(dir, p, s[i].price)
  {
    if s == [] || Before(dir, p, s[0].price) then 0
    else
      assert SortedSide(dir, s[1..]);
      1 + UpperBound(dir, s[1..], p)
  }

  /** The first position whose price does not sort before p: multimap's lower bound. */
  function LowerBound(dir: OrderDir, s: seq<LimitOrder>, p: Money): (k: nat)
    requires SortedSide(dir, s)
    ensures k <= |s|
    ensures forall i :: 0 <= i < k ==> Before(dir, s[i].price, p)
    ensures forall i :: k <= i < |s| ==> !Before(dir, s[i].price, p)
  {
    if s == [] || !Before(dir, s[0].price, p) then 0
    else
      assert SortedSide(dir, s[1..]);
      1 + LowerBound(dir, s[1..], p)
  }

  /** multimap::equal_range: the positions [lo, hi) are exactly the records priced p. */
  function EqualRange(dir: OrderDir, s: seq<LimitOrder>, p: Money): (r: (nat, nat))
    requires SortedSide(dir, s)
    ensures r.0 <= r.1 <= |s|
    ensures forall i :: 0 <= i < |s| ==> (s[i].price == p <==> r.0 <= i < r.1)
  {
    BoundsOrdered(dir, s, p);
    (LowerBound(dir, s, p), UpperBound(dir, s, p))
  }

  lemma {:induction false} BoundsOrdered(dir: OrderDir, s: seq<LimitOrder>, p: Money)
    requires SortedSide(dir, s)
    ensures LowerBound(dir, s, p) <= UpperBound(dir, s, p)
  {
    if s != [] && Before(dir, s[0].price, p) {
      assert SortedSide(dir, s[1..]);
      BoundsOrdered(dir, s[1..], p);
    }
  }

  /** The equal range holds as many records as there are at that price. */
  lemma EqualRangeCount(dir: OrderDir, s: seq<LimitOrder>, p: Money)
    requires SortedSide(dir, s)
    ensures EqualRange(dir, s, p).1 - EqualRange(dir, s, p).0 == CountAt(s, p)
  {
    var r := EqualRange(dir, s, p);
    CountContiguous(s, p, r.0, r.1);
  }

  /** When the records priced p are exactly those at positions [lo, hi), there are hi - lo of them. */
  lemma {:induction false} CountContiguous(s: seq<LimitOrder>, p: Money, lo: nat, hi: nat)
    requires lo <= hi <= |s|
    requires forall i :: 0 <= i < |s| ==> (s[i].price == p <==> lo <= i < hi)
    ensures CountAt(s, p) == hi - lo
  {
    if s != [] {
      var n := |s| - 1;
      var lo', hi' := if lo < n then lo else n, if hi < n then hi else n;
      assert forall i :: 0 <= i < n ==> s[..n][i] == s[i];
      CountContiguous(s[..n], p, lo', hi');
    }
  }

  /**
   * multimap::insert of lo: the side stays in order, gains lo and nothing
   * else, keeps every other record in its order, and no record of lo's
   * price comes after lo (equal prices stay in insertion order).
   */
  function InsertSorted(dir: OrderDir, s: seq<LimitOrder>, lo: LimitOrder): (r: seq<LimitOrder>)
    requires SortedSide(dir, s)
    ensures SortedSide(dir, r)
    ensures |r| == |s| + 1
    ensures multiset(r) == multiset(s) + multiset{lo}
    ensures var k := UpperBound(dir, s, lo.price);
      r[k] == lo && r[..k] + r[k + 1..] == s &&
      forall i :: k < i < |r| ==> Before(dir, lo.price, r[i].price)
  {
    var k := UpperBound(dir, s, lo.price);
    InsertAtProperties(dir, s, lo, k);
    s[..k] + [lo] + s[k..]
  }

  lemma InsertAtProperties(dir: OrderDir, s: seq<LimitOrder>, lo: LimitOrder, k: nat)
    requires SortedSide(dir, s) && k <= |s|
    requires forall i :: 0 <= i < k ==> !Before(dir, lo.price, s[i].price)
    requires forall i :: k <= i < |s| ==> Before(dir, lo.price, s[i].price)
    ensures var r := s[..k] + [lo] + s[k..];
      SortedSide(dir, r) && |r| == |s| + 1 && multiset(r) == multiset(s) + multiset{lo} &&
      r[k] == lo && r[..k] + r[k + 1..] == s
  {
    var r := s[..k] + [lo] + s[k..];
    assert r[..k] + r[k + 1..] == s;
    assert s == s[..k] + s[k..];
    forall i, j | 0 <= i < j < |r|
      ensures !Before(dir, r[j].price, r[i].price)
    {
      if j < k || i > k {
        var i', j' := if i < k then i else i - 1, if j < k then j else j - 1;
        assert r[i] == s[i'] && r[j] == s[j'];
      } else if i == k {
        assert r[j] == s[j - 1];
      } else if j == k {
        assert r[i] == s[i];
      } else {
        assert r[i] == s[i] && r[j] == s[j - 1];
      }
    }
  }

  /** The best price of a non-empty side: the front of its container, the highest bid or the lowest ask. */
  function BestPrice(dir: OrderDir, s: seq<LimitOrder>): (p: Money)
    requires s != []
    requires SortedSide(dir, s)
    ensures exists i :: 0 <= i < |s| && s[i].price == p
    ensures forall i :: 0 <= i < |s| ==> !Before(dir, s[i].price, p)
  {
    s[0].price
  }

  /** current_best_price as written: std::ranges::min_element under <, the lowest price on either side. */
  function MinPrice(s: seq<LimitOrder>): (p: Money)
    requires s != []
    ensures exists i :: 0 <= i < |s| && s[i].price == p
    ensures forall i :: 0 <= i < |s| ==> p.mant <= s[i].price.mant
  {
    if |s| == 1 then s[0].price
    else
      var m := MinPrice(s[1..]);
      if s[0].price.mant <= m.mant then s[0].price else m
  }

  /** On the ask side the literal minimum is the container front, as intended. */
  lemma MinPriceIsBestAsk(s: seq<LimitOrder>)
    requires s != [] && SortedSide(Ask, s)
    ensures MinPrice(s) == BestPrice(Ask, s)
  {
  }

  /** On the bid side the literal minimum is the worst bid: with bids 0.50 and 0.40 it reports 0.40. */
  lemma MinPriceIsWorstBid()
    ensures var s := [LimitOrder(Cents(50), LimitOrderVal(1, 1, 0)), LimitOrder(Cents(40), LimitOrderVal(1, 2, 0))];
      SortedSide(Bid, s) && MinPrice(s) == Cents(40) && BestPrice(Bid, s) == Cents(50)
  {
    var s := [LimitOrder(Cents(50), LimitOrderVal(1, 1, 0)), LimitOrder(Cents(40), LimitOrderVal(1, 2, 0))];
    assert MinPrice(s[1..]) == Cents(40);
  }

  /**
   * quoted_spread as written: 200 * ((ask - bid) / (ask + bid)) with the
   * same-scale Money division, which divides the mantissas.
   */
  function QuotedSpreadAsWritten(ask: Money, bid: Money): (r: Fixed)
    requires ask.mant + bid.mant != 0
    ensures r.scale == MoneyScale
    ensures r.mant == 200 * TruncDiv(ask.mant - bid.mant, ask.mant + bid.mant)
  {
    SameScaleOps(ask, bid);
    SameScaleOps(Sub(ask, bid), Add(ask, bid));
    SameScaleOps(Cents(200), Div(Sub(ask, bid), Add(ask, bid)));
    Mul(Cents(200), Div(Sub(ask, bid), Add(ask, bid)))
  }

  /** As written, the spread is zero for every book with 0 < bid <= ask: the mantissa quotient is below one. */
  lemma {:induction false} QuotedSpreadAsWrittenIsZero(ask: Money, bid: Money)
    requires 0 < bid.mant <= ask.mant
    ensures QuotedSpreadAsWritten(ask, bid) == Cents(0)
  {
    SameScaleOps(ask, bid);
    var q := Div(Sub(ask, bid), Add(ask, bid));
    SameScaleOps(Sub(ask, bid), Add(ask, bid));
    assert q == Fixed(MoneyScale, TruncDiv(ask.mant - bid.mant, ask.mant + bid.mant));
    TruncDivUnique(ask.mant - bid.mant, ask.mant + bid.mant, 0);
    SameScaleOps(Cents(200), q);
  }

  /**
   * The quoted spread as intended: 2 (ask - bid) / (ask + bid) in percent,
   * as Money (hundredths of a percent), truncated toward zero.
   */
  function QuotedSpread(ask: Money, bid: Money): (r: Money)
    requires ask.mant + bid.mant != 0
    ensures IsTruncQuotient(20000 * (ask.mant - bid.mant), ask.mant + bid.mant, r.mant)
  {
    Cents(TruncDiv(20000 * (ask.mant - bid.mant), ask.mant + bid.mant))
  }

  /** The intended spread of a book with 0 < bid <= ask lies between 0 % and 200 %, and is 0 only when bid is near ask. */
  lemma QuotedSpreadBounds(ask: Money, bid: Money)
    requires 0 < bid.mant <= ask.mant
    ensures 0 <= QuotedSpread(ask, bid).mant <= 20000
    ensures QuotedSpread(ask, bid).mant == 0 ==> 20000 * (ask.mant - bid.mant) < ask.mant + bid.mant
  {
    var r := QuotedSpread(ask, bid).mant;
    var n, d := 20000 * (ask.mant - bid.mant), ask.mant + bid.mant;
    assert 0 <= n - r * d < d;
    MulMono(ask.mant - bid.mant, d, 20000);
    assert n <= 20000 * d;
    if r > 20000 {
      MulMono(20001, r, d);
      assert false;
    }
    if r < 0 {
      MulMono(r, -1, d);
      assert false;
    }
  }

  lemma MulMono(x: int, y: int, d: int)
    requires x <= y && d >= 0
    ensures x * d <= y * d
  {
  }

  /** Bid 98.00 and ask 102.00: the intended spread is 4.00 %, the spread as written is 0. */
  lemma QuotedSpreadExample()
    ensures QuotedSpread(Cents(10200), Cents(9800)) == Cents(400)
    ensures QuotedSpreadAsWritten(Cents(10200), Cents(9800)) == Cents(0)
  {
    TruncDivUnique(20000 * 400, 20000, 400);
    QuotedSpreadAsWrittenIsZero(Cents(10200), Cents(9800));
  }

  /**
   * OrderBook::State: the snapshot of derived values. A best price, and the
   * spread, exist only when their sides hold orders. The mid price is only
   * declared in the source and is not part of this snapshot.
   */
  datatype State = State(
    bestPriceBid: Option<Money>,
    bestPriceAsk: Option<Money>,
    quotedSpread: Option<Money>,
    numOrdersBid: nat,
    numOrdersAsk: nat)

  /** The snapshot of a book with these sides. */
  function ComputeState(bids: seq<LimitOrder>, asks: seq<LimitOrder>): (st: State)
    requires SortedSide(Bid, bids) && SortedSide(Ask, asks)
    ensures st.numOrdersBid == |bids| && st.numOrdersAsk == |asks|
    ensures st.bestPriceBid.Some? <==> bids != []
    ensures st.bestPriceAsk.Some? <==> asks != []
    ensures st.bestPriceBid.Some? ==> forall i :: 0 <= i < |bids| ==> bids[i].price.mant <= st.bestPriceBid.value.mant
    ensures st.bestPriceAsk.Some? ==> forall i :: 0 <= i < |asks| ==> st.bestPriceAsk.value.mant <= asks[i].price.mant
    ensures st.bestPriceBid.Some? ==> st.bestPriceBid.value == BestPrice(Bid, bids)
    ensures st.bestPriceAsk.Some? ==> st.bestPriceAsk.value == BestPrice(Ask, asks)
    ensures st.quotedSpread.Some? <==>
      bids != [] && asks != [] && BestPrice(Ask, asks).mant + BestPrice(Bid, bids).mant != 0
    ensures st.quotedSpread.Some? ==> st.quotedSpread.value == QuotedSpread(BestPrice(Ask, asks), BestPrice(Bid, bids))
  {
    var bid := if bids == [] then None else Some(BestPrice(Bid, bids));
    var ask := if asks == [] then None else Some(BestPrice(Ask, asks));
    var spread :=
      if bid.Some? && ask.Some? && ask.value.mant + bid.value.mant != 0 then Some(QuotedSpread(ask.value, bid.value))
      else None;
    State(bid, ask, spread, |bids|, |asks|)
  }

  /** A snapshot's best price for one side. */
  function StateBestPrice(st: State, dir: OrderDir): Option<Money>
  {
    if dir == Bid then st.bestPriceBid else st.bestPriceAsk
  }

  class OrderBook {
    var bids: seq<LimitOrder>
    var asks: seq<LimitOrder>
    var state: State

    /** Each side is in its container's order. */
    ghost predicate Valid()
      reads this
    {
      SortedSide(Bid, bids) && SortedSide(Ask, asks)
    }

    /** The container of one side. */
    function Side(dir: OrderDir): seq<LimitOrder>
      reads this
    {
      if dir == Bid then bids else asks
    }

    /**
     * An empty book. The snapshot member is initialised from itself, so its
     * first value is indeterminate: it is whatever the caller passes.
     */
    constructor (initial: State)
      ensures Valid()
      ensures bids == [] && asks == []
      ensures state == initial
    {
      bids, asks := [], [];
      state := initial;
    }

    /** get_state: the cached snapshot, not recomputed. */
    function GetState(): (st: State)
      reads this
      ensures st == state
    {
      state
    }

    /**
     * update_get_state, which the book's tests call but the class does not
     * declare: refresh the snapshot from the current sides and return it.
     */
    method UpdateGetState() returns (st: State)
      requires Valid()
      modifies this
      ensures Valid() && bids == old(bids) && asks == old(asks)
      ensures state == ComputeState(bids, asks) && st == state
    {
      state := ComputeState(bids, asks);
      st := state;
    }

    /** num_orders: the size of a side. */
    function NumOrders(dir: OrderDir): (n: nat)
      reads this
      ensures n == |Side(dir)|
    {
      if dir == Bid then |bids| else |asks|
    }

    /** current_best_price, as intended: the front of the side's container. */
    function CurrentBestPrice(dir: OrderDir): (p: Money)
      reads this
      requires Valid() && Side(dir) != []
      ensures forall i :: 0 <= i < |Side(dir)| ==> !Before(dir, Side(dir)[i].price, p)
      ensures exists i :: 0 <= i < |Side(dir)| && Side(dir)[i].price == p
    {
      BestPrice(dir, Side(dir))
    }

    /** quoted_spread of the live book (the corrected computation). */
    function CurrentQuotedSpread(): (r: Money)
      reads this
      requires Valid() && bids != [] && asks != []
      requires CurrentBestPrice(Ask).mant + CurrentBestPrice(Bid).mant != 0
      ensures IsTruncQuotient(20000 * (CurrentBestPrice(Ask).mant - CurrentBestPrice(Bid).mant),
                              CurrentBestPrice(Ask).mant + CurrentBestPrice(Bid).mant, r.mant)
    {
      QuotedSpread(CurrentBestPrice(Ask), CurrentBestPrice(Bid))
    }

    /** The cached best price of a side. */
    function CachedBestPrice(dir: OrderDir): Option<Money>
      reads this
    {
      StateBestPrice(state, dir)
    }

    /**
     * orders_at_best_price: the range of positions on the side whose price
     * is the cached best price of that side (not the live one).
     */
    function OrdersAtBestPrice(dir: OrderDir): (r: (nat, nat))
      reads this
      requires Valid() && CachedBestPrice(dir).Some?
      ensures r.0 <= r.1 <= |Side(dir)|
      ensures forall i :: 0 <= i < |Side(dir)| ==> (Side(dir)[i].price == CachedBestPrice(dir).value <==> r.0 <= i < r.1)
      ensures r.1 - r.0 == CountAt(Side(dir), CachedBestPrice(dir).value)
    {
      EqualRangeCount(dir, Side(dir), CachedBestPrice(dir).value);
      EqualRange(dir, Side(dir), CachedBestPrice(dir).value)
    }

    /** insert: the record goes into the side of its direction; the other side and the snapshot are unchanged. */
    method Insert(dir: OrderDir, lo: LimitOrder)
      requires Valid()
      modifies this
      ensures Valid()
      ensures Side(dir) == InsertSorted(dir, old(Side(dir)), lo)
      ensures Side(Contra(dir)) == old(Side(Contra(dir)))
      ensures state == old(state)
    {
      if dir == Bid {
        bids := InsertSorted(Bid, bids, lo);
      } else {
        asks := InsertSorted(Ask, asks, lo);
      }
    }

    /**
     * remove_order: erase the record at pos from a side. The returned
     * position is that of the record after it. The other side and the
     * snapshot are unchanged.
     */
    method RemoveOrder(pos: nat, dir: OrderDir) returns (next: nat)
      requires Valid() && pos < |Side(dir)|
      modifies this
      ensures Valid()
      ensures Side(dir) == RemoveAt(old(Side(dir)), pos)
      ensures Side(Contra(dir)) == old(Side(Contra(dir)))
      ensures state == old(state)
      ensures next == pos
    {
      RemoveAtProperties(dir, Side(dir), pos);
      if dir == Bid {
        bids := RemoveAt(bids, pos);
      } else {
        asks := RemoveAt(asks, pos);
      }
      next := pos;
    }

    /**
     * remove_earliest_order: remove the earliest record of an agent on a
     * side (the first in container order among equal timestamps) and
     * report whether there was one.
     */
    method RemoveEarliestOrder(agentId: int, dir: OrderDir) returns (found: bool)
      requires Valid()
      modifies this
      ensures Valid()
      ensures state == old(state)
      ensures Side(Contra(dir)) == old(Side(Contra(dir)))
      ensures found <==> exists i :: 0 <= i < |old(Side(dir))| && old(Side(dir))[i].val.agentId == agentId
      ensures !found ==> Side(dir) == old(Side(dir))
      ensures found ==> exists k :: IsEarliestOf(old(Side(dir)), agentId, k) && Side(dir) == RemoveAt(old(Side(dir)), k)
    {
      var s := Side(dir);
      var k := EarliestOf(s, agentId);
      found := k < |s|;
      if found {
        assert IsEarliestOf(s, agentId, k);
        var _ := RemoveOrder(k, dir);
      }
      assert s == old(Side(dir));
      if found {
        assert old(Side(dir))[k].val.agentId == agentId;
      }
    }
  }

  /** Position k holds the agent's earliest record on s, the first one among equal timestamps. */
  predicate IsEarliestOf(s: seq<LimitOrder>, agentId: int, k: int)
  {
    0 <= k < |s| && s[k].val.agentId == agentId &&
    (forall j :: 0 <= j < |s| && s[j].val.agentId == agentId ==> s[k].val.timestamp <= s[j].val.timestamp) &&
    (forall j :: 0 <= j < k && s[j].val.agentId == agentId ==> s[k].val.timestamp < s[j].val.timestamp)
  }

  /** The scan for an agent's earliest record; |s| when the agent has none. */
  method EarliestOf(s: seq<LimitOrder>, agentId: int) returns (k: nat)
    ensures k <= |s|
    ensures k == |s| <==> forall i :: 0 <= i < |s| ==> s[i].val.agentId != agentId
    ensures k < |s| ==> IsEarliestOf(s, agentId, k)
  {
    k := |s|;
    var i := 0;
    while i < |s|
      invariant 0 <= i <= |s| && k <= |s|
      invariant k == |s| <==> forall j :: 0 <= j < i ==> s[j].val.agentId != agentId
      invariant k < |s| ==> k < i && IsEarliestOf(s[..i], agentId, k)
    {
      if s[i].val.agentId == agentId && (k == |s| || s[i].val.timestamp < s[k].val.timestamp) {
        k := i;
      }
      i := i + 1;
    }
    assert s[..i] == s;
  }

  /** A fresh book reports no orders on either side. */
  lemma EmptyBookCounts()
    ensures ComputeState([], []).numOrdersAsk == 0 && ComputeState([], []).numOrdersBid == 0
  {
  }

  /**
   * The order-book scenario, whatever the book's first snapshot: inserting
   * one ask into an empty book makes the ask count 1; removing the agent's
   * earliest ask brings it back to 0, and a second removal finds nothing.
   */
  method InsertRemoveScenario(initial: State) returns (c0: nat, c1: nat, c2: nat, second: bool)
    ensures c0 == 0 && c1 == 1 && c2 == 0 && !second
  {
    var ob := new OrderBook(initial);
    var st := ob.UpdateGetState();
    c0 := st.numOrdersAsk;
    ob.Insert(Ask, ToFull(LimitOrderReq(0, 0, Cents(1), Ask, 0)));
    st := ob.UpdateGetState();
    c1 := st.numOrdersAsk;
    var first := ob.RemoveEarliestOrder(0, Ask);
    st := ob.UpdateGetState();
    c2 := st.numOrdersAsk;
    second := ob.RemoveEarliestOrder(0, Ask);
  }
}
