/**
 * The matching system: turns a market order and the live book into a list
 * of transaction requests. FIFO removes, once per unit of the order's
 * volume, the earliest record at the book's cached best price; pro-rata
 * and random selection return no transactions.
 */
module Matching {
  import opened Wrappers
  import opened FixedPoint
  import opened Orders
  import opened Books

  /** MatchingSystem::Type. */
  datatype MatchingType = Fifo | ProRata | RandomSelection

  /** A trade for the exchange to settle: the bidder buys volume from the asker for price. */
  datatype TransactionRequest = TransactionRequest(bidderId: int, askerId: int, volume: int, price: Money)

  /**
   * TransactionRequest(initiator, provider, volume, price, dir): the
   * initiator is the bidder when its order is a Bid and the asker when it
   * is an Ask; the provider takes the other role.
   */
  function MakeTransaction(initiatorId: int, providerId: int, volume: int, price: Money, dir: OrderDir): (t: TransactionRequest)
    ensures dir == Bid ==> t.bidderId == initiatorId && t.askerId == providerId
    ensures dir == Ask ==> t.bidderId == providerId && t.askerId == initiatorId
    ensures t.volume == volume && t.price == price
  {
    if dir == Bid then TransactionRequest(initiatorId, providerId, volume, price)
    else TransactionRequest(providerId, initiatorId, volume, price)
  }

  /**
   * The side FIFO reads and removes from. The code uses the market order's
   * own direction (not its contra side); this is the one place that choice
   * is made.
   */
  function MatchSide(mor: MarketOrderReq): (dir: OrderDir)
    ensures dir != Contra(mor.orderDir)
  {
    mor.orderDir
  }

  /** Position k holds the first record with the smallest timestamp among positions [lo, hi) of s. */
  predicate IsEarliestIn(s: seq<LimitOrder>, lo: nat, hi: nat, k: nat)
  {
    lo <= k < hi <= |s| &&
    (forall j :: lo <= j < hi ==> s[k].val.timestamp <= s[j].val.timestamp) &&
    (forall j :: lo <= j < k ==> s[k].val.timestamp < s[j].val.timestamp)
  }

  /** Position k holds, of the records priced p, the one with the smallest timestamp, the first among equal ones. */
  predicate IsFifoPick(s: seq<LimitOrder>, p: Money, k: int)
  {
    0 <= k < |s| && s[k].price == p &&
    (forall j :: 0 <= j < |s| && s[j].price == p ==> s[k].val.timestamp <= s[j].val.timestamp) &&
    (forall j :: 0 <= j < k && s[j].price == p ==> s[k].val.timestamp < s[j].val.timestamp)
  }

  /** At most one position is the first earliest record at a price. */
  lemma FifoPickUnique(s: seq<LimitOrder>, p: Money, k1: int, k2: int)
    requires IsFifoPick(s, p, k1) && IsFifoPick(s, p, k2)
    ensures k1 == k2
  {
  }

  /** The first earliest record priced p among positions [lo, |s|), or -1 when none is priced p. */
  ghost function PickFrom(s: seq<LimitOrder>, p: Money, lo: nat): (k: int)
    requires lo <= |s|
    ensures k == -1 ==> forall j :: lo <= j < |s| ==> s[j].price != p
    ensures k != -1 ==> lo <= k < |s| && s[k].price == p
    ensures k != -1 ==> forall j :: lo <= j < |s| && s[j].price == p ==> s[k].val.timestamp <= s[j].val.timestamp
    ensures k != -1 ==> forall j :: lo <= j < k && s[j].price == p ==> s[k].val.timestamp < s[j].val.timestamp
    decreases |s| - lo
  {
    if lo == |s| then -1
    else
      var m := PickFrom(s, p, lo + 1);
      if s[lo].price != p then m
      else if m == -1 || s[lo].val.timestamp <= s[m].val.timestamp then lo
      else m
  }

  /** A side with a record at p has a FIFO pick at p. */
  lemma {:induction false} FifoPickExists(s: seq<LimitOrder>, p: Money)
    requires CountAt(s, p) > 0
    ensures exists k :: IsFifoPick(s, p, k)
  {
    var k := PickFrom(s, p, 0);
    if k == -1 {
      CountAtNone(s, p);
    } else {
      assert IsFifoPick(s, p, k);
    }
  }

  /** A side with no position priced p has no record at p. */
  lemma {:induction false} CountAtNone(s: seq<LimitOrder>, p: Money)
    requires forall j :: 0 <= j < |s| ==> s[j].price != p
    ensures CountAt(s, p) == 0
  {
    if s != [] {
      CountAtNone(s[..|s| - 1], p);
    }
  }

  /**
   * The record one FIFO step removes: of the records priced p, the one with
   * the smallest timestamp, the first in container order among equal ones.
   */
  ghost function FifoPick(s: seq<LimitOrder>, p: Money): (k: nat)
    requires CountAt(s, p) > 0
    ensures IsFifoPick(s, p, k)
  {
    FifoPickExists(s, p);
    var k :| IsFifoPick(s, p, k);
    k
  }

  /**
   * On a side in order, std::min_element by timestamp over the equal range
   * of p finds FifoPick's record: the range holds exactly the records priced p.
   */
  lemma RangeEarliestIsFifoPick(s: seq<LimitOrder>, p: Money, lo: nat, hi: nat, k: nat)
    requires hi <= |s| && forall i :: 0 <= i < |s| ==> (s[i].price == p <==> lo <= i < hi)
    requires IsEarliestIn(s, lo, hi, k)
    ensures CountAt(s, p) > 0 && k == FifoPick(s, p)
  {
    CountContiguous(s, p, lo, hi);
    FifoPickUnique(s, p, k, FifoPick(s, p));
  }

  /** The side left after some FIFO steps, and the records they took, in the order taken. */
  datatype Fill = Fill(side: seq<LimitOrder>, taken: seq<LimitOrder>)

  /**
   * n FIFO steps at price p: each removes FifoPick's record and appends it
   * to the records taken. The side loses exactly n records at p.
   */
  ghost function FifoRun(s: seq<LimitOrder>, p: Money, n: nat): (f: Fill)
    requires CountAt(s, p) >= n
    ensures CountAt(f.side, p) == CountAt(s, p) - n
    ensures |f.taken| == n && |f.side| == |s| - n
  {
    if n == 0 then Fill(s, [])
    else
      var f := FifoRun(s, p, n - 1);
      var k := FifoPick(f.side, p);
      RemoveAtProperties(Bid, f.side, k);
      Fill(RemoveAt(f.side, k), f.taken + [f.side[k]])
  }

  /** FIFO removal keeps a side in its container order. */
  lemma {:induction false} FifoRunSorted(dir: OrderDir, s: seq<LimitOrder>, p: Money, n: nat)
    requires SortedSide(dir, s) && CountAt(s, p) >= n
    ensures SortedSide(dir, FifoRun(s, p, n).side)
  {
    if n > 0 {
      FifoRunSorted(dir, s, p, n - 1);
      var g := FifoRun(s, p, n - 1);
      RemoveAtProperties(dir, g.side, FifoPick(g.side, p));
    }
  }

  /**
   * FIFO loses no record and invents none: what is left and what was taken
   * together are the records the side started with, and every record taken
   * was priced p.
   */
  lemma {:induction false} FifoRunAccounts(s: seq<LimitOrder>, p: Money, n: nat)
    requires CountAt(s, p) >= n
    ensures multiset(FifoRun(s, p, n).side) + multiset(FifoRun(s, p, n).taken) == multiset(s)
    ensures forall i :: 0 <= i < n ==> FifoRun(s, p, n).taken[i].price == p
  {
    if n > 0 {
      FifoRunAccounts(s, p, n - 1);
      var g := FifoRun(s, p, n - 1);
      TakeOneAccounts(g.side, g.taken, s, p, FifoPick(g.side, p));
    }
  }

  /** One FIFO step moves a record priced p from the side to the end of the records taken. */
  lemma TakeOneAccounts(side: seq<LimitOrder>, taken: seq<LimitOrder>, s: seq<LimitOrder>, p: Money, k: nat)
    requires k < |side| && side[k].price == p
    requires multiset(side) + multiset(taken) == multiset(s)
    requires forall i :: 0 <= i < |taken| ==> taken[i].price == p
    ensures multiset(RemoveAt(side, k)) + multiset(taken + [side[k]]) == multiset(s)
    ensures forall i :: 0 <= i < |taken| + 1 ==> (taken + [side[k]])[i].price == p
  {
    RemoveAtProperties(Bid, side, k);
    assert multiset(taken + [side[k]]) == multiset(taken) + multiset{side[k]};
  }

  /**
   * The records taken so far are in time order, and none of the records
   * still resting at p is earlier than any of them.
   */
  predicate TakenInTimeOrder(taken: seq<LimitOrder>, side: seq<LimitOrder>, p: Money)
  {
    (forall i, j :: 0 <= i < j < |taken| ==> taken[i].val.timestamp <= taken[j].val.timestamp) &&
    (forall i, m :: 0 <= i < |taken| && 0 <= m < |side| && side[m].price == p ==> taken[i].val.timestamp <= side[m].val.timestamp)
  }

  /** Taking the earliest record at p keeps the taken records in time order. */
  lemma TakeEarliestKeepsTimeOrder(taken: seq<LimitOrder>, side: seq<LimitOrder>, p: Money, k: nat)
    requires IsFifoPick(side, p, k)
    requires TakenInTimeOrder(taken, side, p)
    ensures TakenInTimeOrder(taken + [side[k]], RemoveAt(side, k), p)
  {
    var t, r := taken + [side[k]], RemoveAt(side, k);
    forall i, j | 0 <= i < j < |t|
      ensures t[i].val.timestamp <= t[j].val.timestamp
    {
      assert t[i] == taken[i];
      if j < |taken| {
        assert t[j] == taken[j];
      }
    }
    forall i, m | 0 <= i < |t| && 0 <= m < |r| && r[m].price == p
      ensures t[i].val.timestamp <= r[m].val.timestamp
    {
      var m' := if m < k then m else m + 1;
      assert r[m] == side[m'];
      if i < |taken| {
        assert t[i] == taken[i];
      }
    }
  }

  /**
   * FIFO takes records in time order: the taken timestamps never decrease,
   * and no record still resting at p is earlier than one already taken.
   */
  lemma {:induction false} FifoTakesInTimeOrder(s: seq<LimitOrder>, p: Money, n: nat)
    requires CountAt(s, p) >= n
    ensures TakenInTimeOrder(FifoRun(s, p, n).taken, FifoRun(s, p, n).side, p)
  {
    if n > 0 {
      FifoTakesInTimeOrder(s, p, n - 1);
      var g := FifoRun(s, p, n - 1);
      TakeEarliestKeepsTimeOrder(g.taken, g.side, p, FifoPick(g.side, p));
      FifoRunStep(s, p, n);
    }
  }

  /**
   * The transactions FIFO emits for the records taken, one per record in
   * the order taken: the market order's agent is the initiator, the record's
   * agent the provider, the record's whole volume is traded, at price p.
   */
  function Transactions(mor: MarketOrderReq, p: Money, taken: seq<LimitOrder>): (ts: seq<TransactionRequest>)
    ensures |ts| == |taken|
    ensures forall i :: 0 <= i < |ts| ==> ts[i].price == p && ts[i].volume == taken[i].val.volume
    ensures forall i :: 0 <= i < |ts| && mor.orderDir == Bid ==> ts[i].bidderId == mor.agentId && ts[i].askerId == taken[i].val.agentId
    ensures forall i :: 0 <= i < |ts| && mor.orderDir == Ask ==> ts[i].askerId == mor.agentId && ts[i].bidderId == taken[i].val.agentId
  {
    seq(|taken|, i requires 0 <= i < |taken| =>
      MakeTransaction(mor.agentId, taken[i].val.agentId, taken[i].val.volume, p, mor.orderDir))
  }

  /** Taking one more record adds its transaction at the end. */
  lemma TransactionsSnoc(mor: MarketOrderReq, p: Money, taken: seq<LimitOrder>, rec: LimitOrder)
    ensures Transactions(mor, p, taken + [rec]) ==
      Transactions(mor, p, taken) + [MakeTransaction(mor.agentId, rec.val.agentId, rec.val.volume, p, mor.orderDir)]
  {
  }

  /** One more FIFO step removes FifoPick's record from the side left so far and appends it to the records taken. */
  lemma FifoRunStep(s: seq<LimitOrder>, p: Money, n: nat)
    requires 0 < n && CountAt(s, p) >= n
    ensures var g := FifoRun(s, p, n - 1);
      var k := FifoPick(g.side, p);
      FifoRun(s, p, n) == Fill(RemoveAt(g.side, k), g.taken + [g.side[k]])
  {
  }

  /** n copies of one record. */
  function Repeat(rec: LimitOrder, n: nat): (r: seq<LimitOrder>)
    ensures |r| == n && forall i :: 0 <= i < n ==> r[i] == rec
  {
    seq(n, _ => rec)
  }

  /** What a run of the FIFO loop leaves on the side and emits. */
  datatype Matched = Matched(side: seq<LimitOrder>, trans: seq<TransactionRequest>)

  /**
   * The FIFO loop as written, at the cached price p, on a level that may be
   * short. While records rest at p, each pass takes FifoPick's record as
   * FifoRun does. Once the level is empty, equal_range is empty and its
   * first iterator is the next record in container order: every further
   * pass reads that record's price, agent and volume, emits a transaction
   * for it and erases nothing. With no record after the level, the pass
   * dereferences end(): None.
   */
  ghost function FifoAsWritten(mor: MarketOrderReq, s: seq<LimitOrder>, p: Money): (r: Option<Matched>)
    requires SortedSide(MatchSide(mor), s) && mor.volume > 0
    ensures CountAt(s, p) >= mor.volume ==>
      r == Some(Matched(FifoRun(s, p, mor.volume).side, Transactions(mor, p, FifoRun(s, p, mor.volume).taken)))
    ensures r.Some? ==> |r.value.trans| == mor.volume
    ensures CountAt(s, p) < mor.volume && r.Some? ==> r.value.side == FifoRun(s, p, CountAt(s, p)).side
  {
    if CountAt(s, p) >= mor.volume then
      var f := FifoRun(s, p, mor.volume);
      Some(Matched(f.side, Transactions(mor, p, f.taken)))
    else
      var dir := MatchSide(mor);
      var c := CountAt(s, p);
      var f := FifoRun(s, p, c);
      FifoRunSorted(dir, s, p, c);
      var k := LowerBound(dir, f.side, p);
      if k == |f.side| then None
      else
        var rec := f.side[k];
        Some(Matched(f.side, Transactions(mor, p, f.taken) + Transactions(mor, rec.price, Repeat(rec, mor.volume - c))))
  }

  /**
   * A short level as written: asks at 0.40 (3 shares, agent 2) and 0.45
   * (5 shares, agent 3), cached best price 0.40, and a market ask of 2 from
   * agent 1. The first pass takes the 0.40 record; the second emits a trade
   * of 5 shares at 0.45 with agent 3 and leaves agent 3's record resting.
   */
  lemma PhantomTrade()
    ensures var a := LimitOrder(Cents(40), LimitOrderVal(3, 2, 0));
      var b := LimitOrder(Cents(45), LimitOrderVal(5, 3, 0));
      FifoAsWritten(MarketOrderReq(2, 1, Ask, 0), [a, b], Cents(40)) ==
        Some(Matched([b], [TransactionRequest(2, 1, 3, Cents(40)), TransactionRequest(3, 1, 5, Cents(45))]))
  {
    var a := LimitOrder(Cents(40), LimitOrderVal(3, 2, 0));
    var b := LimitOrder(Cents(45), LimitOrderVal(5, 3, 0));
    var s, p, mor := [a, b], Cents(40), MarketOrderReq(2, 1, Ask, 0);
    assert SortedSide(Ask, s);
    assert s[..1] == [a] && [a][..0] == [];
    assert CountAt(s, p) == 1;
    assert IsFifoPick(s, p, 0);
    FifoPickUnique(s, p, 0, FifoPick(s, p));
    assert FifoRun(s, p, 0) == Fill(s, []);
    FifoRunStep(s, p, 1);
    var f := FifoRun(s, p, 1);
    assert f == Fill(RemoveAt(s, 0), [a]);
    assert RemoveAt(s, 0) == [b];
    assert LowerBound(Ask, [b], p) == 0;
    var t := Transactions(mor, p, [a]) + Transactions(mor, b.price, Repeat(b, 1));
    assert FifoAsWritten(mor, s, p) == Some(Matched([b], t));
    assert t == [TransactionRequest(2, 1, 3, Cents(40)), TransactionRequest(3, 1, 5, Cents(45))];
  }

  /** FIFO can take volume records from a side: a best price is cached for it and at least volume records rest there. */
  predicate ReadyAt(cached: Option<Money>, side: seq<LimitOrder>, volume: int)
  {
    cached.Some? && CountAt(side, cached.value) >= volume
  }

  /** What FIFO needs of the book for this order, on the side it matches against. */
  predicate FifoReady(book: OrderBook, mor: MarketOrderReq)
    reads book
  {
    ReadyAt(book.CachedBestPrice(MatchSide(mor)), book.Side(MatchSide(mor)), mor.volume)
  }

  /** The scan std::min_element does: the first record with the smallest timestamp in [lo, hi). */
  method EarliestIndex(s: seq<LimitOrder>, lo: nat, hi: nat) returns (k: nat)
    requires lo < hi <= |s|
    ensures IsEarliestIn(s, lo, hi, k)
  {
    k := lo;
    var i := lo + 1;
    while i < hi
      invariant lo < i <= hi && lo <= k < i
      invariant forall j :: lo <= j < i ==> s[k].val.timestamp <= s[j].val.timestamp
      invariant forall j :: lo <= j < k ==> s[k].val.timestamp < s[j].val.timestamp
    {
      if s[i].val.timestamp < s[k].val.timestamp {
        k := i;
      }
      i := i + 1;
    }
  }

  /**
   * One pass of the FIFO loop: find the equal range of the cached best
   * price, take the earliest record in it and erase it. The record erased
   * is FifoPick's, and the best price read is the cached one.
   */
  method PopEarliestAtBest(book: OrderBook, dir: OrderDir) returns (rec: LimitOrder, bestPrice: Money)
    requires book.Valid() && book.CachedBestPrice(dir).Some?
    requires CountAt(book.Side(dir), book.CachedBestPrice(dir).value) > 0
    modifies book
    ensures book.Valid() && book.state == old(book.state)
    ensures bestPrice == old(book.CachedBestPrice(dir)).value
    ensures var k := FifoPick(old(book.Side(dir)), bestPrice);
      rec == old(book.Side(dir))[k] && book.Side(dir) == RemoveAt(old(book.Side(dir)), k)
    ensures book.Side(Contra(dir)) == old(book.Side(Contra(dir)))
  {
    var range := book.OrdersAtBestPrice(dir);
    bestPrice := book.Side(dir)[range.0].price;
    var k := EarliestIndex(book.Side(dir), range.0, range.1);
    RangeEarliestIsFifoPick(book.Side(dir), bestPrice, range.0, range.1, k);
    rec := book.Side(dir)[k];
    var _ := book.RemoveOrder(k, dir);
  }

  class MatchingSystem {
    const kind: MatchingType

    constructor (kind: MatchingType)
      ensures this.kind == kind
    {
      this.kind := kind;
    }

    /**
     * operator(), corrected: match a market order against the book. Under
     * FIFO an order that the cached best level cannot fill is refused
     * (filled is false) before anything is erased, where the loop as written
     * goes on past the level (FifoAsWritten). Otherwise the book's matching
     * side ends as mor.volume FIFO steps at the cached best price leave it,
     * and one transaction is emitted per step; the other side and the
     * cached snapshot are untouched. The other policies change nothing and
     * return no transactions.
     */
    method Match(mor: MarketOrderReq, book: OrderBook) returns (trans: seq<TransactionRequest>, filled: bool)
      requires book.Valid() && mor.volume > 0
      modifies book
      ensures book.Valid() && book.state == old(book.state)
      ensures filled <==> kind != Fifo || old(FifoReady(book, mor))
      ensures !filled || kind != Fifo ==> trans == [] && book.bids == old(book.bids) && book.asks == old(book.asks)
      ensures kind == Fifo && filled ==>
        var dir := MatchSide(mor);
        var p := old(book.CachedBestPrice(dir)).value;
        var f := FifoRun(old(book.Side(dir)), p, mor.volume);
        book.Side(dir) == f.side && book.Side(Contra(dir)) == old(book.Side(Contra(dir))) &&
        trans == Transactions(mor, p, f.taken)
    {
      trans := [];
      filled := kind != Fifo || FifoReady(book, mor);
      if kind == Fifo && filled {
        var dir := MatchSide(mor);
        ghost var s0 := book.Side(dir);
        ghost var p := book.CachedBestPrice(dir).value;
        var i := 0;
        while i < mor.volume
          invariant 0 <= i <= mor.volume
          invariant book.Valid() && book.state == old(book.state)
          invariant book.Side(dir) == FifoRun(s0, p, i).side
          invariant book.Side(Contra(dir)) == old(book.Side(Contra(dir)))
          invariant trans == Transactions(mor, p, FifoRun(s0, p, i).taken)
        {
          ghost var f := FifoRun(s0, p, i);
          var rec, bestPrice := PopEarliestAtBest(book, dir);
          trans := trans + [MakeTransaction(mor.agentId, rec.val.agentId, rec.val.volume, bestPrice, mor.orderDir)];
          FifoRunStep(s0, p, i + 1);
          TransactionsSnoc(mor, p, f.taken, rec);
          i := i + 1;
        }
      }
    }
  }
}
