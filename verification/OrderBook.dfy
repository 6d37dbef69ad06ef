/**
  The bid side of a Kraken order book and the market sale into it
  (qrx-core/gateways/qrx-arbitrage-engine.py). Decimals are exact reals.
 */
module OrderBook {

  import opened Wrappers

  datatype Level = Level(price: real, qty: real)

  ghost predicate Positive(bids: seq<Level>) {
    forall i :: 0 <= i < |bids| ==> bids[i].price > 0.0 && bids[i].qty > 0.0
  }

  ghost predicate BestFirst(bids: seq<Level>) {
    forall i, j :: 0 <= i <= j < |bids| ==> bids[i].price >= bids[j].price
  }

  /** What KrakenBook.from_dict builds. */
  ghost predicate IsBook(bids: seq<Level>) {
    Positive(bids) && BestFirst(bids)
  }

  // ----- reading a book -----

  function Tradable(levels: seq<Level>): (r: seq<Level>)
    ensures Positive(r)
  {
    if levels == [] then []
    else
      var l := levels[0];
      (if l.price > 0.0 && l.qty > 0.0 then [l] else []) + Tradable(levels[1..])
  }

  /** Behind every level of at least the same price, as a stable descending sort places it. */
  function Insert(l: Level, bids: seq<Level>): (r: seq<Level>)
    ensures multiset(r) == multiset{l} + multiset(bids)
  {
    if bids == [] then [l]
    else if bids[0].price >= l.price then
      assert bids == [bids[0]] + bids[1..];
      [bids[0]] + Insert(l, bids[1..])
    else [l] + bids
  }

  lemma {:induction false} InsertKeepsOrder(l: Level, bids: seq<Level>)
    requires BestFirst(bids)
    ensures BestFirst(Insert(l, bids))
  {
    if bids != [] && bids[0].price >= l.price {
      InsertKeepsOrder(l, bids[1..]);
      var rest := Insert(l, bids[1..]);
      forall i | 0 <= i < |rest| ensures bids[0].price >= rest[i].price {
        assert rest[i] in multiset(rest);
        assert rest[i] == l || rest[i] in bids[1..];
      }
    }
  }

  /** Stable, greatest price first. */
  function Sorted(bids: seq<Level>): (r: seq<Level>) {
    if bids == [] then [] else Insert(bids[|bids| - 1], Sorted(bids[..|bids| - 1]))
  }

  lemma {:induction false} SortedIsBook(bids: seq<Level>)
    requires Positive(bids)
    ensures IsBook(Sorted(bids)) && multiset(Sorted(bids)) == multiset(bids)
  {
    if bids != [] {
      var n := |bids| - 1;
      SortedIsBook(bids[..n]);
      InsertKeepsOrder(bids[n], Sorted(bids[..n]));
      assert bids == bids[..n] + [bids[n]];
      var r := Sorted(bids);
      forall i | 0 <= i < |r| ensures r[i].price > 0.0 && r[i].qty > 0.0 {
        assert r[i] in multiset(r);
        assert r[i] in bids;
      }
    }
  }

  method ReadBids(levels: seq<Level>) returns (bids: seq<Level>)
    ensures IsBook(bids)
    ensures multiset(bids) == multiset(Tradable(levels))
  {
    bids := [];
    for i := 0 to |levels|
      invariant bids == Tradable(levels[..i])
    {
      hide Tradable;
      var l := levels[i];
      TradableSnoc(levels[..i], l);
      assert levels[..i + 1] == levels[..i] + [l];
      if l.price > 0.0 && l.qty > 0.0 {
        bids := bids + [l];
      }
    }
    assert levels[..|levels|] == levels;
    SortedIsBook(bids);
    bids := Sorted(bids);
  }

  lemma {:induction false} TradableSnoc(levels: seq<Level>, l: Level)
    ensures Tradable(levels + [l]) == Tradable(levels) + if l.price > 0.0 && l.qty > 0.0 then [l] else []
  {
    if levels != [] {
      TradableSnoc(levels[1..], l);
      assert (levels + [l])[1..] == levels[1..] + [l];
    }
  }

  // ----- allocations -----

  function Depth(bids: seq<Level>): real {
    if bids == [] then 0.0 else bids[0].qty + Depth(bids[1..])
  }

  /** The quantity bid at a price or better. */
  function DepthFrom(bids: seq<Level>, limit: real): real {
    if bids == [] then 0.0
    else (if bids[0].price >= limit then bids[0].qty else 0.0) + DepthFrom(bids[1..], limit)
  }

  function DepthAbove(bids: seq<Level>, limit: real): real {
    if bids == [] then 0.0
    else (if bids[0].price > limit then bids[0].qty else 0.0) + DepthAbove(bids[1..], limit)
  }

  /** A way to sell into the book: how much to each bid. */
  ghost predicate Allocates(bids: seq<Level>, a: seq<real>) {
    |a| == |bids| && forall i :: 0 <= i < |a| ==> 0.0 <= a[i] <= bids[i].qty
  }

  function Total(a: seq<real>): real {
    if a == [] then 0.0 else a[0] + Total(a[1..])
  }

  function Value(bids: seq<Level>, a: seq<real>): real
    requires |a| == |bids|
  {
    if a == [] then 0.0 else a[0] * bids[0].price + Value(bids[1..], a[1..])
  }

  /** Best bid first, as much as it takes. */
  function Greedy(bids: seq<Level>, q: real): (a: seq<real>)
    ensures |a| == |bids|
  {
    if bids == [] then []
    else
      var take := Take(bids[0], q);
      [take] + Greedy(bids[1..], q - take)
  }

  function Take(l: Level, q: real): real {
    var take := if q < l.qty then q else l.qty;
    if take <= 0.0 then 0.0 else take
  }

  /** The price of the last bid the greedy sale reaches, or w when it reaches none. */
  function Worst(bids: seq<Level>, q: real, w: real): real {
    if bids == [] then w
    else
      var take := Take(bids[0], q);
      Worst(bids[1..], q - take, if take > 0.0 then bids[0].price else w)
  }

  datatype Sale = Sale(proceeds: real, vwap: real, worst: real)

  function ExecutableSale(bids: seq<Level>, q: real): Result<Sale> {
    var proceeds := Value(bids, Greedy(bids, q));
    if q <= 0.0 || Depth(bids) < q then Refused("insufficient executable bid depth")
    else Ok(Sale(proceeds, proceeds / q, Worst(bids, q, 0.0)))
  }

  lemma {:induction false} NothingLeft(bids: seq<Level>, q: real, w: real)
    requires q <= 0.0 && Positive(bids)
    ensures Value(bids, Greedy(bids, q)) == 0.0 && Worst(bids, q, w) == w && Total(Greedy(bids, q)) == 0.0
  {
    if bids != [] { NothingLeft(bids[1..], q, w); }
  }

  /** The greedy sale fills all of it, or all there is. */
  lemma {:induction false} GreedyFills(bids: seq<Level>, q: real)
    requires Positive(bids) && q >= 0.0
    ensures Allocates(bids, Greedy(bids, q))
    ensures Total(Greedy(bids, q)) == if q <= Depth(bids) then q else Depth(bids)
    ensures Depth(bids) >= 0.0
  {
    if bids != [] {
      GreedyFills(bids[1..], q - Take(bids[0], q));
    }
  }

  /** The sale still to make from bid i on adds up to the whole sale. */
  ghost predicate OnTrack(bids: seq<Level>, q: real, i: nat, remaining: real, proceeds: real, worst: real)
    requires i <= |bids|
  {
    && proceeds + Value(bids[i..], Greedy(bids[i..], remaining)) == Value(bids, Greedy(bids, q))
    && Worst(bids[i..], remaining, worst) == Worst(bids, q, 0.0)
    && q - remaining + Depth(bids[i..]) == Depth(bids)
  }

  lemma FirstBid(bids: seq<Level>, q: real, w: real)
    requires bids != []
    ensures var l, rest := bids[0], bids[1..]; var take := Take(l, q);
            && Greedy(bids, q) == [take] + Greedy(rest, q - take)
            && Value(bids, Greedy(bids, q)) == take * l.price + Value(rest, Greedy(rest, q - take))
            && Worst(bids, q, w) == Worst(rest, q - take, if take > 0.0 then l.price else w)
            && Depth(bids) == l.qty + Depth(rest)
  {
    assert Greedy(bids, q)[1..] == Greedy(bids[1..], q - Take(bids[0], q));
  }

  /** One bid of the loop: the whole sale stays on track, or is made. */
  lemma TakeNext(bids: seq<Level>, q: real, i: nat, remaining: real, proceeds: real, worst: real)
    requires i < |bids| && remaining > 0.0 && Positive(bids)
    requires OnTrack(bids, q, i, remaining, proceeds, worst)
    ensures var l := bids[i]; var take := Take(l, remaining);
            && 0.0 < take <= l.qty
            && (take < remaining ==>
                 OnTrack(bids, q, i + 1, remaining - take, proceeds + take * l.price, l.price))
            && (take == remaining ==>
                 && proceeds + take * l.price == Value(bids, Greedy(bids, q))
                 && l.price == Worst(bids, q, 0.0)
                 && q <= Depth(bids))
  {
    hide Value, Greedy, Worst, Depth;
    assert bids[i..][1..] == bids[i + 1..];
    FirstBid(bids[i..], remaining, worst);
    NothingLeft(bids[i + 1..], 0.0, bids[i].price);
    DepthNonNegative(bids[i + 1..]);
  }

  method ExecuteSale(bids: seq<Level>, quantity: real) returns (r: Result<Sale>)
    requires IsBook(bids)
    ensures r == ExecutableSale(bids, quantity)
  {
    var remaining, proceeds, filled, worst := quantity, 0.0, 0.0, 0.0;
    assert bids[0..] == bids;
    for i := 0 to |bids|
      invariant filled == quantity - remaining
      invariant quantity <= 0.0 ==> filled == 0.0
      invariant quantity > 0.0 ==> remaining > 0.0 && OnTrack(bids, quantity, i, remaining, proceeds, worst)
    {
      hide OnTrack;
      var price, available := bids[i].price, bids[i].qty;
      var take := if remaining < available then remaining else available;
      if take <= 0.0 { continue; }
      assert take == Take(bids[i], remaining);
      TakeNext(bids, quantity, i, remaining, proceeds, worst);
      proceeds := proceeds + take * price;
      filled := filled + take;
      remaining := remaining - take;
      worst := price;
      if remaining <= 0.0 {
        assert filled == quantity && proceeds == Value(bids, Greedy(bids, quantity));
        assert worst == Worst(bids, quantity, 0.0);
        assert quantity <= Depth(bids);
        assert ExecutableSale(bids, quantity) == Ok(Sale(proceeds, proceeds / quantity, worst));
        break;
      }
    }
    if remaining > 0.0 || filled <= 0.0 {
      return Refused("insufficient executable bid depth");
    }
    return Ok(Sale(proceeds, proceeds / filled, worst));
  }

  lemma {:induction false} DepthNonNegative(bids: seq<Level>)
    requires Positive(bids)
    ensures Depth(bids) >= 0.0
  {
    if bids != [] { DepthNonNegative(bids[1..]); }
  }

  // ----- the sale is optimal -----

  /** Moving any quantity between bids the greedy sale separated can only lose money. */
  ghost predicate Separates(bids: seq<Level>, a: seq<real>, w: real) {
    && |a| == |bids|
    && forall i :: 0 <= i < |a| ==>
         && (bids[i].price > w ==> a[i] == bids[i].qty)
         && (bids[i].price < w ==> a[i] == 0.0)
  }

  lemma {:induction false} NothingAllocated(bids: seq<Level>, q: real)
    requires q <= 0.0 && Positive(bids)
    ensures forall i :: 0 <= i < |bids| ==> Greedy(bids, q)[i] == 0.0
  {
    if bids != [] { NothingAllocated(bids[1..], q); }
  }

  lemma {:induction false} WorstBounds(bids: seq<Level>, q: real, w: real)
    requires IsBook(bids) && 0.0 < q <= Depth(bids)
    ensures bids != [] && 0.0 < Worst(bids, q, w) <= bids[0].price
  {
    hide Value, Greedy;
    var l := bids[0];
    if q > l.qty {
      WorstBounds(bids[1..], q - l.qty, l.price);
    } else {
      NothingLeft(bids[1..], 0.0, l.price);
      assert q - Take(l, q) == 0.0;
    }
  }

  lemma {:induction false} GreedySeparates(bids: seq<Level>, q: real, w: real)
    requires IsBook(bids) && 0.0 < q <= Depth(bids)
    ensures Separates(bids, Greedy(bids, q), Worst(bids, q, w))
  {
    hide Value, Greedy, Worst, Total;
    var l := bids[0];
    FirstBid(bids, q, w);
    WorstBounds(bids, q, w);
    if q > l.qty {
      GreedySeparates(bids[1..], q - l.qty, l.price);
    } else {
      NothingAllocated(bids[1..], 0.0);
      NothingLeft(bids[1..], 0.0, l.price);
      assert q - Take(l, q) == 0.0;
    }
  }

  /** Selling tb instead of ta earns at most w on each unit of the difference. */
  ghost predicate GainsAtMost(va: real, vb: real, w: real, ta: real, tb: real) {
    vb - va <= w * (tb - ta)
  }

  /** Any other allocation earns at most the separating price on what it sells more. */
  lemma {:induction false} NoBetterAllocation(bids: seq<Level>, a: seq<real>, b: seq<real>, w: real)
    requires Separates(bids, a, w) && Allocates(bids, b)
    requires Allocates(bids, a)
    ensures GainsAtMost(Value(bids, a), Value(bids, b), w, Total(a), Total(b))
  {
    hide Value, Total, GainsAtMost;
    if bids == [] {
      EmptyBook(bids, a, b, w);
    } else {
      FirstTerm(bids, a);
      FirstTerm(bids, b);
      NoBetterAllocation(bids[1..], a[1..], b[1..], w);
      AddGains(a[0], b[0], bids[0].price, w, Value(bids[1..], a[1..]), Value(bids[1..], b[1..]),
               Total(a[1..]), Total(b[1..]), Value(bids, a), Value(bids, b), Total(a), Total(b));
    }
  }

  lemma EmptyBook(bids: seq<Level>, a: seq<real>, b: seq<real>, w: real)
    requires bids == [] && a == [] && b == []
    ensures GainsAtMost(Value(bids, a), Value(bids, b), w, Total(a), Total(b))
  {
  }

  lemma FirstTerm(bids: seq<Level>, a: seq<real>)
    requires bids != [] && |a| == |bids|
    ensures Value(bids, a) == a[0] * bids[0].price + Value(bids[1..], a[1..])
    ensures Total(a) == a[0] + Total(a[1..])
  {
  }

  lemma AddGains(a: real, b: real, p: real, w: real, va: real, vb: real, ta: real, tb: real,
                 va': real, vb': real, ta': real, tb': real)
    requires (p > w ==> b <= a) && (p < w ==> b >= a)
    requires GainsAtMost(va, vb, w, ta, tb)
    requires va' == a * p + va && vb' == b * p + vb && ta' == a + ta && tb' == b + tb
    ensures GainsAtMost(va', vb', w, ta', tb')
  {
    TermGain(a, b, p, w);
    assert w * (tb' - ta') == w * (b - a) + w * (tb - ta);
  }

  lemma TermGain(a: real, b: real, p: real, w: real)
    requires (p > w ==> b <= a) && (p < w ==> b >= a)
    ensures b * p - a * p <= w * (b - a)
  {
    var x, y := b - a, p - w;
    assert x * y <= 0.0;
    assert b * p - a * p - w * (b - a) == x * y;
  }

  lemma {:induction false} DepthsAround(bids: seq<Level>, a: seq<real>, w: real)
    requires Separates(bids, a, w) && Allocates(bids, a)
    ensures DepthAbove(bids, w) <= Total(a) <= DepthFrom(bids, w)
  {
    if bids != [] { DepthsAround(bids[1..], a[1..], w); }
  }

  /** The last bid reached gets something: better prices alone would not fill the sale. */
  lemma {:induction false} WorstIsNeeded(bids: seq<Level>, q: real, w: real)
    requires IsBook(bids) && 0.0 < q <= Depth(bids)
    ensures DepthAbove(bids, Worst(bids, q, w)) < q
  {
    var l := bids[0];
    WorstBounds(bids, q, w);
    if q > l.qty {
      WorstIsNeeded(bids[1..], q - l.qty, l.price);
    } else {
      NothingLeft(bids[1..], 0.0, l.price);
      assert q - Take(l, q) == 0.0;
      NothingAbove(bids, l.price);
    }
  }

  lemma {:induction false} NothingAbove(bids: seq<Level>, w: real)
    requires forall i :: 0 <= i < |bids| ==> bids[i].price <= w
    ensures DepthAbove(bids, w) == 0.0
  {
    if bids != [] { NothingAbove(bids[1..], w); }
  }

  /** No way to sell as much, or less, earns more than the greedy sale. */
  lemma NoBetterSale(bids: seq<Level>, q: real, b: seq<real>)
    requires IsBook(bids) && 0.0 < q <= Depth(bids)
    requires Allocates(bids, b) && Total(b) <= q
    ensures Value(bids, b) <= Value(bids, Greedy(bids, q))
  {
    hide Value, Greedy, Worst, Total, Depth, Separates;
    var a, w := Greedy(bids, q), Worst(bids, q, 0.0);
    GreedyFills(bids, q);
    GreedySeparates(bids, q, 0.0);
    WorstBounds(bids, q, 0.0);
    NoBetterAllocation(bids, a, b, w);
    NonPositive(w, Total(b) - Total(a));
  }

  lemma NonPositive(w: real, x: real)
    requires w > 0.0 && x <= 0.0
    ensures w * x <= 0.0
  {
  }

  lemma QuotientTimes(p: real, q: real)
    requires q != 0.0
    ensures p / q * q == p
  {
  }

  /**
    The sale succeeds exactly when there is something to sell and bids enough; then
    it sells all of it, no way to sell as much (or less) earns more, a limit at the
    returned worst price is enough, and no higher limit would be.
   */
  lemma SaleIsOptimal(bids: seq<Level>, q: real)
    requires IsBook(bids)
    ensures ExecutableSale(bids, q).Ok? <==> 0.0 < q <= Depth(bids)
    ensures ExecutableSale(bids, q).Ok? ==>
              var sale := ExecutableSale(bids, q).value;
              && (exists a :: Allocates(bids, a) && Total(a) == q && Value(bids, a) == sale.proceeds)
              && (forall b :: Allocates(bids, b) && Total(b) <= q ==> Value(bids, b) <= sale.proceeds)
              && DepthAbove(bids, sale.worst) < q <= DepthFrom(bids, sale.worst)
              && sale.vwap * q == sale.proceeds
  {
    hide Value, Greedy, Worst, Total, Depth, DepthAbove, DepthFrom, Separates;
    if 0.0 < q <= Depth(bids) {
      var a, w := Greedy(bids, q), Worst(bids, q, 0.0);
      GreedyFills(bids, q);
      GreedySeparates(bids, q, 0.0);
      DepthsAround(bids, a, w);
      WorstIsNeeded(bids, q, 0.0);
      QuotientTimes(Value(bids, a), q);
      forall b | Allocates(bids, b) && Total(b) <= q ensures Value(bids, b) <= Value(bids, a) {
        NoBetterSale(bids, q, b);
      }
    }
  }
}
