/**
 Spread-profit ranking over orderbook snapshots.

 An orderbook keeps, per side, one level per price in an ordered map. The profit of a
 market is what buying at the best bid and selling at the best ask earns after the
 trading post's sell fee; markets are ranked by that profit in a second ordered map.
 Decimal amounts are exact, so they are modelled as `real`.
 */
module Strategy {
  import opened Wrappers
  import opened SortedMaps

  type Price = real
  type Size = real
  type Profit = real

  /** Fraction of the sale price the trading post keeps when an item sells. */
  const SellFee: real := 0.15

  /** One price level of an orderbook side. */
  datatype Level = Level(price: Price, size: Size)

  /** Every entry is filed under its own level's price. */
  predicate KeyedByPrice(es: seq<(Price, Level)>) {
    forall i :: 0 <= i < |es| ==> es[i].1.price == es[i].0
  }

  /** One side of an orderbook: its levels keyed by price, lowest price first. */
  type Side = s: SortedMap<Level> | KeyedByPrice(s) witness []

  datatype Orderbook = Orderbook(asks: Side, bids: Side)

  /** A market and its current orderbook. */
  datatype Market = Market(id: nat, orderbook: Orderbook)

  /** The ranking built by `FindProfit`: markets keyed by profit, lowest profit first. */
  datatype ProfitResult = ProfitResult(inner: SortedMap<Market>)

  // ---------------------------------------------------------------------------
  // Building an orderbook
  // ---------------------------------------------------------------------------

  /** Some level of `levels` has price `p`. */
  ghost predicate HasPrice(levels: seq<Level>, p: Price) {
    exists i :: 0 <= i < |levels| && levels[i].price == p
  }

  /** `j` is the last position of `levels` at price `levels[j].price`. */
  ghost predicate IsLastAtPrice(levels: seq<Level>, j: int) {
    && 0 <= j < |levels|
    && forall i :: j < i < |levels| ==> levels[i].price != levels[j].price
  }

  /** `side` holds exactly the prices of `levels`, each with the last level given at that price. */
  ghost predicate CollectedFrom(side: Side, levels: seq<Level>) {
    && (forall p :: p in ToMap(side) <==> HasPrice(levels, p))
    && (forall j :: IsLastAtPrice(levels, j) ==>
          levels[j].price in ToMap(side) && ToMap(side)[levels[j].price] == levels[j])
  }

  /** Each level paired with its price, in input order. */
  function ByPrice(levels: seq<Level>): seq<(Price, Level)> {
    seq(|levels|, i requires 0 <= i < |levels| => (levels[i].price, levels[i]))
  }

  /** Pairing levels with their prices keeps the price-set and the last-wins choice. */
  lemma ByPriceMeaning(levels: seq<Level>)
    ensures KeyedByPrice(ByPrice(levels))
    ensures forall p :: p in ToMap(ByPrice(levels)) <==> HasPrice(levels, p)
    ensures forall j :: IsLastAtPrice(levels, j) ==>
              levels[j].price in ToMap(ByPrice(levels)) && ToMap(ByPrice(levels))[levels[j].price] == levels[j]
  {
    var pairs := ByPrice(levels);
    forall p
      ensures p in ToMap(pairs) <==> HasPrice(levels, p)
    {
      ToMapKeys(pairs, p);
      if HasPrice(levels, p) {
        var i :| 0 <= i < |levels| && levels[i].price == p;
        assert pairs[i].0 == p;
      }
    }
    forall j | IsLastAtPrice(levels, j)
      ensures levels[j].price in ToMap(pairs) && ToMap(pairs)[levels[j].price] == levels[j]
    {
      assert IsLastWithKey(pairs, j);
      ToMapLastWins(pairs, j);
    }
  }

  /** One side of a new orderbook: `levels` collected into a map keyed by price. */
  function SideOf(levels: seq<Level>): (side: Side)
    ensures CollectedFrom(side, levels)
    ensures |side| <= |levels|
  {
    var pairs := ByPrice(levels);
    var s := Collect(pairs);
    ByPriceMeaning(levels);
    assert KeyedByPrice(s) by {
      forall i | 0 <= i < |s|
        ensures s[i].1.price == s[i].0
      {
        var t :| 0 <= t < |pairs| && pairs[t] == s[i];
      }
    }
    s
  }

  /**
   `Orderbook::new(bids, asks)`: each side keyed by price, so several levels at one
   price collapse to the last of them.
   */
  function NewOrderbook(bids: seq<Level>, asks: seq<Level>): (ob: Orderbook)
    ensures CollectedFrom(ob.asks, asks)
    ensures CollectedFrom(ob.bids, bids)
  {
    Orderbook(SideOf(asks), SideOf(bids))
  }

  // ---------------------------------------------------------------------------
  // Reading an orderbook
  // ---------------------------------------------------------------------------

  /** The ask levels, best (lowest price) first: one per price of the ask map, each the map's level at its price. */
  function Asks(ob: Orderbook): (r: seq<Level>)
    ensures |r| == |ToMap(ob.asks)|
    ensures forall i, j :: 0 <= i < j < |r| ==> r[i].price < r[j].price
    ensures forall i :: 0 <= i < |r| ==> r[i].price in ToMap(ob.asks) && ToMap(ob.asks)[r[i].price] == r[i]
  {
    SortedSize(ob.asks);
    Values(ob.asks)
  }

  /** The bid levels, best (highest price) first: one per price of the bid map, each the map's level at its price. */
  function Bids(ob: Orderbook): (r: seq<Level>)
    ensures |r| == |ToMap(ob.bids)|
    ensures forall i, j :: 0 <= i < j < |r| ==> r[i].price > r[j].price
    ensures forall i :: 0 <= i < |r| ==> r[i].price in ToMap(ob.bids) && ToMap(ob.bids)[r[i].price] == r[i]
  {
    SortedSize(ob.bids);
    var vs := Values(ob.bids);
    var r := Reverse(vs);
    assert forall i :: 0 <= i < |r| ==> r[i] == ob.bids[|vs| - 1 - i].1;
    r
  }

  /** Every level of the ask map is yielded by `Asks`. */
  lemma AsksCoverMap(ob: Orderbook, p: Price)
    requires p in ToMap(ob.asks)
    ensures ToMap(ob.asks)[p] in Asks(ob)
  {
    SortedKeys(ob.asks, p);
    var i :| 0 <= i < |ob.asks| && ob.asks[i].0 == p && ToMap(ob.asks)[p] == ob.asks[i].1;
    assert Asks(ob)[i] == ob.asks[i].1;
  }

  /** Every level of the bid map is yielded by `Bids`. */
  lemma BidsCoverMap(ob: Orderbook, p: Price)
    requires p in ToMap(ob.bids)
    ensures ToMap(ob.bids)[p] in Bids(ob)
  {
    SortedKeys(ob.bids, p);
    var i :| 0 <= i < |ob.bids| && ob.bids[i].0 == p && ToMap(ob.bids)[p] == ob.bids[i].1;
    assert Bids(ob)[|ob.bids| - 1 - i] == ob.bids[i].1;
  }

  // ---------------------------------------------------------------------------
  // Profit of one market
  // ---------------------------------------------------------------------------

  /** `p` is the lowest price on `side`. */
  ghost predicate IsLowestPrice(side: Side, p: Price) {
    p in ToMap(side) && forall q :: q in ToMap(side) ==> p <= q
  }

  /** `p` is the highest price on `side`. */
  ghost predicate IsHighestPrice(side: Side, p: Price) {
    p in ToMap(side) && forall q :: q in ToMap(side) ==> q <= p
  }

  /** Profit of buying at `bid` and selling at `ask`, net of the sell fee charged on `ask`. */
  function NetProfit(ask: Price, bid: Price): Profit {
    (ask - bid) - ask * SellFee
  }

  /**
   `calc_profit_from_spread`: no profit when either side is empty, otherwise the
   net profit between the lowest ask and the highest bid.
   */
  function CalcProfit(ob: Orderbook): (r: Option<Profit>)
    ensures r.None? <==> |ob.asks| == 0 || |ob.bids| == 0
    ensures forall a, b :: IsLowestPrice(ob.asks, a) && IsHighestPrice(ob.bids, b) ==> r == Some(NetProfit(a, b))
  {
    var asks := Asks(ob);
    var bids := Bids(ob);
    if |asks| == 0 then None
    else if |bids| == 0 then None
    else
      var bestAsk := asks[0];
      var bestBid := bids[0];
      BestLevels(ob);
      Some((bestAsk.price - bestBid.price) - bestAsk.price * SellFee)
  }

  /** The first ask is at the lowest price and the first bid at the highest one. */
  lemma BestLevels(ob: Orderbook)
    requires |ob.asks| > 0 && |ob.bids| > 0
    ensures forall a :: IsLowestPrice(ob.asks, a) ==> a == Asks(ob)[0].price
    ensures forall b :: IsHighestPrice(ob.bids, b) ==> b == Bids(ob)[0].price
  {
    SortedFirstIsLeast(ob.asks);
    SortedLastIsGreatest(ob.bids);
    assert Bids(ob)[0] == ob.bids[|ob.bids| - 1].1;
  }

  /** The prices of `levels`, in order. */
  function Prices(levels: seq<Level>): seq<Price> {
    seq(|levels|, i requires 0 <= i < |levels| => levels[i].price)
  }

  /** Two level lists with the same prices yield sides with the same prices. */
  lemma SamePricesSameKeys(levels1: seq<Level>, levels2: seq<Level>, side1: Side, side2: Side)
    requires Prices(levels1) == Prices(levels2)
    requires CollectedFrom(side1, levels1) && CollectedFrom(side2, levels2)
    ensures forall p :: p in ToMap(side1) <==> p in ToMap(side2)
  {
    forall p
      ensures HasPrice(levels1, p) <==> HasPrice(levels2, p)
    {
      if HasPrice(levels1, p) {
        var i :| 0 <= i < |levels1| && levels1[i].price == p;
        assert Prices(levels1)[i] == p;
      }
      if HasPrice(levels2, p) {
        var i :| 0 <= i < |levels2| && levels2[i].price == p;
        assert Prices(levels2)[i] == p;
      }
    }
  }

  /** Orderbooks quoting the same prices on each side have the same profit. */
  lemma SamePricesSameProfit(ob1: Orderbook, ob2: Orderbook)
    requires forall p :: p in ToMap(ob1.asks) <==> p in ToMap(ob2.asks)
    requires forall p :: p in ToMap(ob1.bids) <==> p in ToMap(ob2.bids)
    ensures CalcProfit(ob1) == CalcProfit(ob2)
  {
    SameKeysSameEmptiness(ob1.asks, ob2.asks);
    SameKeysSameEmptiness(ob1.bids, ob2.bids);
    if |ob1.asks| > 0 && |ob1.bids| > 0 {
      SameKeysSameExtremes(ob1.asks, ob2.asks);
      SameKeysSameExtremes(ob1.bids, ob2.bids);
      var profit := NetProfit(ob1.asks[0].0, ob1.bids[|ob1.bids| - 1].0);
      assert CalcProfit(ob1) == Some(profit);
      assert CalcProfit(ob2) == Some(profit);
    }
  }

  /** Two sides with the same prices share their lowest and their highest price. */
  lemma SameKeysSameExtremes(s1: Side, s2: Side)
    requires forall p :: p in ToMap(s1) <==> p in ToMap(s2)
    requires |s1| > 0
    ensures IsLowestPrice(s1, s1[0].0) && IsLowestPrice(s2, s1[0].0)
    ensures IsHighestPrice(s1, s1[|s1| - 1].0) && IsHighestPrice(s2, s1[|s1| - 1].0)
  {
    SortedFirstIsLeast(s1);
    SortedLastIsGreatest(s1);
  }

  /** Sides binding the same prices are empty together. */
  lemma SameKeysSameEmptiness(s1: Side, s2: Side)
    requires forall p :: p in ToMap(s1) <==> p in ToMap(s2)
    ensures |s1| == 0 <==> |s2| == 0
  {
    if |s1| > 0 {
      SortedLookup(s1, 0);
    }
    if |s2| > 0 {
      SortedLookup(s2, 0);
    }
  }

  /** The profit depends only on which prices are quoted, never on level sizes. */
  lemma ProfitIgnoresSizes(bids1: seq<Level>, asks1: seq<Level>, bids2: seq<Level>, asks2: seq<Level>)
    requires Prices(bids1) == Prices(bids2)
    requires Prices(asks1) == Prices(asks2)
    ensures CalcProfit(NewOrderbook(bids1, asks1)) == CalcProfit(NewOrderbook(bids2, asks2))
  {
    var ob1 := NewOrderbook(bids1, asks1);
    var ob2 := NewOrderbook(bids2, asks2);
    SamePricesSameKeys(asks1, asks2, ob1.asks, ob2.asks);
    SamePricesSameKeys(bids1, bids2, ob1.bids, ob2.bids);
    SamePricesSameProfit(ob1, ob2);
  }

  /** A book with one level on each side earns the net profit between those two prices. */
  lemma SingleLevelProfit(bid: Level, ask: Level)
    ensures CalcProfit(NewOrderbook([bid], [ask])) == Some(NetProfit(ask.price, bid.price))
  {
    var ob := NewOrderbook([bid], [ask]);
    assert HasPrice([ask], ask.price);
    assert HasPrice([bid], bid.price);
    assert IsLowestPrice(ob.asks, ask.price);
    assert IsHighestPrice(ob.bids, bid.price);
  }

  /**
   A book with two bids and two asks, each pair given in increasing price, earns the net
   profit between the lower ask and the higher bid.
   */
  lemma TwoLevelProfit(bid1: Level, bid2: Level, ask1: Level, ask2: Level)
    requires bid1.price < bid2.price && ask1.price < ask2.price
    ensures CalcProfit(NewOrderbook([bid1, bid2], [ask1, ask2])) == Some(NetProfit(ask1.price, bid2.price))
  {
    var bids := [bid1, bid2];
    var asks := [ask1, ask2];
    var ob := NewOrderbook(bids, asks);
    assert HasPrice(asks, ask1.price) && HasPrice(bids, bid2.price);
    forall q | q in ToMap(ob.asks)
      ensures ask1.price <= q
    {
      var i :| 0 <= i < |asks| && asks[i].price == q;
    }
    forall q | q in ToMap(ob.bids)
      ensures q <= bid2.price
    {
      var i :| 0 <= i < |bids| && bids[i].price == q;
    }
    assert IsLowestPrice(ob.asks, ask1.price);
    assert IsHighestPrice(ob.bids, bid2.price);
  }

  /** The `naive_profit_works` unit test: bids at 1 and 2, asks at 3 and 4. */
  lemma NaiveProfitExample()
    ensures CalcProfit(NewOrderbook([Level(1.0, 1.0), Level(2.0, 1.0)], [Level(3.0, 1.0), Level(4.0, 1.0)]))
            == Some(1.0 - 3.0 * SellFee)
  {
    TwoLevelProfit(Level(1.0, 1.0), Level(2.0, 1.0), Level(3.0, 1.0), Level(4.0, 1.0));
  }

  // ---------------------------------------------------------------------------
  // Ranking markets
  // ---------------------------------------------------------------------------

  /** The profit of each market, in input order. */
  function Profits(markets: seq<Market>): (ps: seq<Option<Profit>>)
    ensures |ps| == |markets|
  {
    seq(|markets|, i requires 0 <= i < |markets| => CalcProfit(markets[i].orderbook))
  }

  /** The `filter_map` step: each market that yields a profit, paired with it, in input order. */
  function ProfitPairs(markets: seq<Market>): (pairs: seq<(Profit, Market)>) {
    PresentPairs(Profits(markets), markets)
  }

  /**
   `find_profit`: the markets that yield a profit, keyed by that profit; of several
   markets with equal profit the later one is kept.
   */
  function FindProfit(markets: seq<Market>): (r: ProfitResult)
    ensures forall p :: p in ToMap(r.inner) <==> KeyPresent(Profits(markets), p)
    ensures forall j :: IsLastPresent(Profits(markets), j) ==>
              var p := Profits(markets)[j].value;
              p in ToMap(r.inner) && ToMap(r.inner)[p] == markets[j]
    ensures |r.inner| <= |markets|
  {
    PresentPairsMeaning(Profits(markets), markets);
    ProfitResult(Collect(ProfitPairs(markets)))
  }

  /** `ProfitResult::iter`: the ranking, highest profit first, one entry per profit of the map. */
  function Iter(pr: ProfitResult): (r: seq<(Profit, Market)>)
    ensures |r| == |ToMap(pr.inner)|
    ensures forall i, j :: 0 <= i < j < |r| ==> r[i].0 > r[j].0
    ensures forall i :: 0 <= i < |r| ==> r[i].0 in ToMap(pr.inner) && ToMap(pr.inner)[r[i].0] == r[i].1
  {
    SortedSize(pr.inner);
    var r := Reverse(pr.inner);
    assert forall i :: 0 <= i < |r| ==> r[i].0 in ToMap(pr.inner) && ToMap(pr.inner)[r[i].0] == r[i].1 by {
      forall i | 0 <= i < |r|
        ensures r[i].0 in ToMap(pr.inner) && ToMap(pr.inner)[r[i].0] == r[i].1
      {
        SortedLookup(pr.inner, |r| - 1 - i);
      }
    }
    r
  }

  /** Every entry of the profit map is yielded by `Iter`. */
  lemma IterCoversMap(pr: ProfitResult, p: Profit)
    requires p in ToMap(pr.inner)
    ensures (p, ToMap(pr.inner)[p]) in Iter(pr)
  {
    SortedKeys(pr.inner, p);
    var i :| 0 <= i < |pr.inner| && pr.inner[i].0 == p && ToMap(pr.inner)[p] == pr.inner[i].1;
    assert Iter(pr)[|pr.inner| - 1 - i] == pr.inner[i];
  }

  /** `ProfitResult::best`: the entry with the highest profit, if any market yielded one. */
  function Best(pr: ProfitResult): (r: Option<(Profit, Market)>)
    ensures r.None? <==> ToMap(pr.inner) == map[]
    ensures r.Some? ==> r.value.0 in ToMap(pr.inner) && ToMap(pr.inner)[r.value.0] == r.value.1
    ensures r.Some? ==> forall q :: q in ToMap(pr.inner) ==> q <= r.value.0
  {
    var entries := Iter(pr);
    if |entries| == 0 then
      None
    else
      SortedLastIsGreatest(pr.inner);
      assert entries[0] == pr.inner[|pr.inner| - 1];
      Some(entries[0])
  }

  /**
   The best entry of `find_profit` is absent exactly when no market yields a profit;
   otherwise it carries the highest profit any market yields, together with the last
   market that yields it.
   */
  lemma FindProfitBest(markets: seq<Market>)
    ensures Best(FindProfit(markets)).None? <==>
              forall i :: 0 <= i < |markets| ==> Profits(markets)[i].None?
    ensures Best(FindProfit(markets)).Some? ==>
              var (p, m) := Best(FindProfit(markets)).value;
              && (forall i :: 0 <= i < |markets| && Profits(markets)[i].Some? ==> Profits(markets)[i].value <= p)
              && exists j :: IsLastPresent(Profits(markets), j) && Profits(markets)[j] == Some(p) && markets[j] == m
  {
    var ps := Profits(markets);
    var pr := FindProfit(markets);
    var M := ToMap(pr.inner);
    if forall i :: 0 <= i < |markets| ==> ps[i].None? {
      assert forall k :: k !in M;
      assert M == map[];
    } else {
      var i :| 0 <= i < |markets| && ps[i].Some?;
      assert KeyPresent(ps, ps[i].value);
      assert ps[i].value in M;
    }
    var best := Best(pr);
    if best.Some? {
      var (p, m) := best.value;
      forall i | 0 <= i < |markets| && ps[i].Some?
        ensures ps[i].value <= p
      {
        assert KeyPresent(ps, ps[i].value);
      }
      var j := LastPresent(ps, p);
    }
  }

  /**
   Three markets with increasing profits `a < b < c`: the best entry is the third
   market, with profit `c`.
   */
  lemma RankThreeBest(markets: seq<Market>, a: Profit, b: Profit, c: Profit)
    requires a < b < c
    requires Profits(markets) == [Some(a), Some(b), Some(c)]
    ensures Best(FindProfit(markets)) == Some((c, markets[2]))
  {
    var pr := FindProfit(markets);
    GreatestOfThree(Profits(markets), markets, ToMap(pr.inner), a, b, c);
    BestIsGreatest(pr, c);
  }

  /** If `p` is the greatest profit in the map, the best entry is `p` with its market. */
  lemma BestIsGreatest(pr: ProfitResult, p: Profit)
    requires p in ToMap(pr.inner)
    requires forall q :: q in ToMap(pr.inner) ==> q <= p
    ensures Best(pr) == Some((p, ToMap(pr.inner)[p]))
  {
    var best := Best(pr);
    assert best.Some?;
    assert best.value.0 == p;
  }

  /**
   A map holding exactly the keys present in `[Some(a), Some(b), Some(c)]`, each with the
   value at its last position, has `c` as its greatest key, bound to the third value.
   */
  lemma GreatestOfThree<V>(ps: seq<Option<real>>, vals: seq<V>, M: map<real, V>, a: real, b: real, c: real)
    requires a < b < c
    requires ps == [Some(a), Some(b), Some(c)] && |vals| == 3
    requires forall p :: p in M <==> KeyPresent(ps, p)
    requires forall j :: IsLastPresent(ps, j) ==> ps[j].value in M && M[ps[j].value] == vals[j]
    ensures c in M && M[c] == vals[2]
    ensures forall q :: q in M ==> q <= c
  {
    assert ps[0] == Some(a) && ps[1] == Some(b) && ps[2] == Some(c);
    assert IsLastPresent(ps, 2);
    forall q | q in M
      ensures q <= c
    {
      var i :| 0 <= i < |ps| && ps[i] == Some(q);
    }
  }

  /** Three markets with distinct profits are all kept, so the ranking has three entries. */
  lemma RankThreeSize(markets: seq<Market>, a: Profit, b: Profit, c: Profit)
    requires a < b < c
    requires Profits(markets) == [Some(a), Some(b), Some(c)]
    ensures |Iter(FindProfit(markets))| == 3
  {
    ThreePresentKeys(Profits(markets), ToMap(FindProfit(markets).inner), a, b, c);
  }

  /** A map keyed by exactly the keys present in `[Some(a), Some(b), Some(c)]`, all distinct, has three entries. */
  lemma ThreePresentKeys<V>(ps: seq<Option<real>>, M: map<real, V>, a: real, b: real, c: real)
    requires a < b < c
    requires ps == [Some(a), Some(b), Some(c)]
    requires forall p :: p in M <==> KeyPresent(ps, p)
    ensures M.Keys == {a, b, c}
    ensures |M| == 3
  {
    assert ps[0] == Some(a) && ps[1] == Some(b) && ps[2] == Some(c);
    assert KeyPresent(ps, a) && KeyPresent(ps, b) && KeyPresent(ps, c);
    forall k | k in M
      ensures k == a || k == b || k == c
    {
      var i :| 0 <= i < |ps| && ps[i] == Some(k);
    }
    assert M.Keys == {a, b, c};
    assert |M| == |M.Keys|;
  }

  /**
   The `find_best_profit` unit test: three markets bidding 2 and asking 3, 4
   and 5. All three profits are kept, and the best is the one asking 5.
   */
  lemma FindBestProfitExample(m1: Market, m2: Market, m3: Market)
    requires m1.orderbook == NewOrderbook([Level(2.0, 1.0)], [Level(3.0, 1.0)])
    requires m2.orderbook == NewOrderbook([Level(2.0, 1.0)], [Level(4.0, 1.0)])
    requires m3.orderbook == NewOrderbook([Level(2.0, 1.0)], [Level(5.0, 1.0)])
    ensures Best(FindProfit([m1, m2, m3])) == Some((3.0 - 5.0 * SellFee, m3))
    ensures |Iter(FindProfit([m1, m2, m3]))| == 3
  {
    SingleLevelProfit(Level(2.0, 1.0), Level(3.0, 1.0));
    SingleLevelProfit(Level(2.0, 1.0), Level(4.0, 1.0));
    SingleLevelProfit(Level(2.0, 1.0), Level(5.0, 1.0));
    RankThreeMarkets(m1, m2, m3, NetProfit(3.0, 2.0), NetProfit(4.0, 2.0), NetProfit(5.0, 2.0));
  }

  /** Three markets with increasing profits, in input order: all are ranked and the third is best. */
  lemma RankThreeMarkets(m1: Market, m2: Market, m3: Market, a: Profit, b: Profit, c: Profit)
    requires a < b < c
    requires CalcProfit(m1.orderbook) == Some(a)
    requires CalcProfit(m2.orderbook) == Some(b)
    requires CalcProfit(m3.orderbook) == Some(c)
    ensures Best(FindProfit([m1, m2, m3])) == Some((c, m3))
    ensures |Iter(FindProfit([m1, m2, m3]))| == 3
  {
    var markets := [m1, m2, m3];
    assert Profits(markets) == [Some(a), Some(b), Some(c)];
    RankThreeBest(markets, a, b, c);
    RankThreeSize(markets, a, b, c);
  }
}
