/**
  The arbitrage engine (qrx-core/gateways/qrx-arbitrage-engine.py): evaluation of
  one opportunity against configured limits, and the hedge planned from it.

  Decimals are exact reals. An opportunity id, a hash of order id, symbol, book
  timestamp and quantity, is ideal: it names those four.
 */
module Arbitrage {

  import opened Wrappers
  import opened OrderBook

  const SATOSHIS: real := 100000000.0
  const ATOMS: real := 100000000.0
  const BPS: real := 10000.0
  const DAY: int := 86400

  datatype Mode = Opportunity | Paper | Confirm

  datatype Config = Config(
    mode: Mode, symbol: string, qrxEurPrice: real, oracleTimestamp: int,
    maxOracleAge: int, maxBookAge: int,
    takerFeeBps: real, slippageBps: real, riskBps: real, bitcoinFeeEur: real, qrxFeeEur: real,
    minProfitEur: real, minMarginBps: real,
    maxQuantityBtc: real, maxDailyBtc: real, maxOpenEur: real,
    prefundedBtc: real, requirePrefunded: bool)

  datatype Order = Order(id: string, market: string, side: string, status: string,
                         remainingSats: int, priceAtoms: int)

  datatype Book = Book(symbol: string, bids: seq<Level>, timestamp: int)

  datatype Id = Id(orderId: string, symbol: string, bookTimestamp: int, quantitySats: int)

  datatype State = REJECTED | OPPORTUNITY_DETECTED | PAPER_FILLED
                 | AWAITING_CONFIRMATION | APPROVED | HEDGE_BROADCAST

  datatype Decision = Decision(
    id: Id, state: State, reason: string, quantitySats: int, quantityBtc: real,
    acquisitionEur: real, grossEur: real, limitEur: real, profitEur: real, marginBps: real,
    oracleTimestamp: int, bookTimestamp: int, liveReady: bool)

  // ----- evaluation -----

  function ConfigError(c: Config, now: int): Option<string> {
    if c.symbol != "BTC/EUR" && c.symbol != "XBT/EUR" then Some("unsupported symbol")
    else if c.qrxEurPrice <= 0.0 then Some("reference price must be greater than zero")
    else if c.oracleTimestamp <= 0 || now - c.oracleTimestamp > c.maxOracleAge then Some("reference price is stale")
    else if !(0.0 <= c.takerFeeBps < BPS && 0.0 <= c.slippageBps < BPS && 0.0 <= c.riskBps < BPS) then
      Some("bps outside safe range")
    else if c.maxQuantityBtc <= 0.0 || c.maxDailyBtc <= 0.0 || c.maxOpenEur <= 0.0 then
      Some("risk limits must be greater than zero")
    else None
  }

  predicate LiveCrosschain(status: string) {
    status in {"open", "partially_filled", "matched", "awaiting_btc_funding", "btc_funded"}
  }

  function OrderError(o: Order): Option<string> {
    if o.id == "" then Some("order id is required")
    else if o.market != "BTC/QUB" || o.side != "SELL" then Some("candidate must be a BTC/QUB SELL order")
    else if !LiveCrosschain(o.status) then Some("order is not live")
    else if o.remainingSats <= 0 || o.priceAtoms <= 0 then Some("no executable quantity or price")
    else None
  }

  /** Quantised to eight decimals, toward zero. */
  function Money(v: real): real {
    var scaled := v * 100000000.0;
    (if scaled >= 0.0 then scaled.Floor else -((-scaled).Floor)) as real / 100000000.0
  }

  lemma MoneyBelow(v: real)
    requires v >= 0.0
    ensures 0.0 <= Money(v) <= v < Money(v) + 1.0 / 100000000.0
  {
  }

  function Quantity(o: Order): real { o.remainingSats as real / SATOSHIS }

  function Acquisition(c: Config, o: Order): real {
    Quantity(o) * (o.priceAtoms as real / ATOMS) * c.qrxEurPrice
  }

  function IdOf(o: Order, b: Book): Id { Id(o.id, b.symbol, b.timestamp, o.remainingSats) }

  /** What the sale leaves after acquisition, fees and buffers. */
  function Profit(c: Config, o: Order, gross: real): real {
    var cost := Acquisition(c, o);
    gross - cost - gross * c.takerFeeBps / BPS - gross * c.slippageBps / BPS - cost * c.riskBps / BPS
      - (c.bitcoinFeeEur + c.qrxFeeEur)
  }

  function Margin(c: Config, o: Order, gross: real): real {
    var cost := Acquisition(c, o);
    if cost > 0.0 then Profit(c, o, gross) / cost * BPS else -999999.0
  }

  predicate Funded(c: Config, o: Order) {
    c.prefundedBtc >= Quantity(o) || !c.requirePrefunded
  }

  /** The first threshold an opportunity misses, in the order they are tried; "" when none. */
  function Objection(c: Config, o: Order, gross: real, daily: real, open: real): string {
    if Quantity(o) > c.maxQuantityBtc then "quantity exceeds per-opportunity BTC limit"
    else if daily + Quantity(o) > c.maxDailyBtc then "daily BTC limit would be exceeded"
    else if open + Acquisition(c, o) > c.maxOpenEur then "open EUR exposure limit would be exceeded"
    else if Profit(c, o, gross) < c.minProfitEur then "net profit below configured minimum"
    else if Margin(c, o, gross) < c.minMarginBps then "net margin below configured minimum"
    else if c.mode == Confirm && !Funded(c, o) then "insufficient prefunded Kraken BTC"
    else ""
  }

  function AcceptedState(m: Mode): State {
    match m
    case Opportunity => OPPORTUNITY_DETECTED
    case Paper => PAPER_FILLED
    case Confirm => AWAITING_CONFIRMATION
  }

  function Evaluate(c: Config, o: Order, b: Book, now: int, daily: real, open: real): Result<Decision> {
    if ConfigError(c, now).Some? then Refused(ConfigError(c, now).value)
    else if OrderError(o).Some? then Refused(OrderError(o).value)
    else if b.symbol != "BTC/EUR" && b.symbol != "XBT/EUR" then Refused("book must be BTC/EUR")
    else if b.timestamp <= 0 || now - b.timestamp > c.maxBookAge then Refused("order book is stale")
    else
      match ExecutableSale(b.bids, Quantity(o))
      case Refused(reason) => Refused(reason)
      case Ok(sale) =>
        var objection := Objection(c, o, sale.proceeds, daily, open);
        Ok(Decision(
          IdOf(o, b), if objection == "" then AcceptedState(c.mode) else REJECTED,
          if objection == "" then "all thresholds satisfied" else objection,
          o.remainingSats, Money(Quantity(o)), Money(Acquisition(c, o)), Money(sale.proceeds), Money(sale.worst),
          Money(Profit(c, o, sale.proceeds)), Money(Margin(c, o, sale.proceeds)),
          c.oracleTimestamp, b.timestamp,
          objection == "" && Funded(c, o)))
  }

  /** The Kraken leg of an execution plan. */
  datatype Hedge = Hedge(quantityAtoms: int, limitPriceAtoms: int, reference: Id)

  function ExecutionPlan(d: Decision): Hedge {
    Hedge(d.quantitySats, (d.limitEur * ATOMS).Floor, d.id)
  }

  lemma MoneyIsWholeAtoms(v: real)
    requires v >= 0.0
    ensures (Money(v) * ATOMS).Floor as real / ATOMS == Money(v)
  {
    var n := (v * 100000000.0).Floor;
    assert Money(v) * ATOMS == n as real;
  }

  lemma {:induction false} LowerLimitDeeper(bids: seq<Level>, low: real, high: real)
    requires low <= high && Positive(bids)
    ensures DepthFrom(bids, low) >= DepthFrom(bids, high)
  {
    if bids != [] { LowerLimitDeeper(bids[1..], low, high); }
  }

  /**
    The hedge planned from any decision is a limit order the evaluated book fills
    completely, and gives up less than one atom of price against the deepest bid needed.
   */
  lemma PlannedHedgeFills(c: Config, o: Order, b: Book, now: int, daily: real, open: real)
    requires IsBook(b.bids) && Evaluate(c, o, b, now, daily, open).Ok?
    ensures var plan := ExecutionPlan(Evaluate(c, o, b, now, daily, open).value);
            var limit := plan.limitPriceAtoms as real / ATOMS;
            var quantity := plan.quantityAtoms as real / SATOSHIS;
            && quantity > 0.0
            && DepthFrom(b.bids, limit) >= quantity
            && DepthAbove(b.bids, limit + 1.0 / ATOMS) < quantity
  {
    hide Money, Objection, Profit, Margin, Acquisition, DepthFrom, DepthAbove, ConfigError, ExecutableSale;
    RoundedLimitFills(b.bids, Quantity(o));
  }

  lemma RoundedLimitFills(bids: seq<Level>, q: real)
    requires IsBook(bids) && ExecutableSale(bids, q).Ok?
    ensures q > 0.0
    ensures var limit := Money(ExecutableSale(bids, q).value.worst);
            && (limit * ATOMS).Floor as real / ATOMS == limit
            && DepthFrom(bids, limit) >= q && DepthAbove(bids, limit + 1.0 / ATOMS) < q
  {
    hide Money, DepthFrom, DepthAbove;
    var sale := ExecutableSale(bids, q).value;
    SaleIsOptimal(bids, q);
    WorstBounds(bids, q, 0.0);
    MoneyBelow(sale.worst);
    MoneyIsWholeAtoms(sale.worst);
    LowerLimitDeeper(bids, Money(sale.worst), sale.worst);
    HigherLimitShallower(bids, sale.worst, Money(sale.worst) + 1.0 / ATOMS);
  }

  lemma {:induction false} HigherLimitShallower(bids: seq<Level>, low: real, high: real)
    requires low <= high && Positive(bids)
    ensures DepthAbove(bids, high) <= DepthAbove(bids, low)
  {
    if bids != [] { HigherLimitShallower(bids[1..], low, high); }
  }

  /** States whose rows count against the limits. */
  predicate Live(s: State) { s in {AWAITING_CONFIRMATION, APPROVED, HEDGE_BROADCAST} }

  lemma QuantityPositive(c: Config, o: Order)
    requires OrderError(o).None? && c.qrxEurPrice > 0.0
    ensures Quantity(o) > 0.0 && Acquisition(c, o) > 0.0
  {
    var price := o.priceAtoms as real / ATOMS;
    assert Quantity(o) > 0.0 && price > 0.0;
    ProductPositive(Quantity(o), price);
    ProductPositive(Quantity(o) * price, c.qrxEurPrice);
  }

  lemma ProductPositive(x: real, y: real)
    requires x > 0.0 && y > 0.0
    ensures x * y > 0.0
  {
  }

  /** A decision that will count against the limits fits under them with the totals it was given. */
  lemma LiveDecisionFits(c: Config, o: Order, b: Book, now: int, daily: real, open: real)
    requires Evaluate(c, o, b, now, daily, open).Ok?
    ensures var d := Evaluate(c, o, b, now, daily, open).value;
            && d.id == IdOf(o, b)
            && d.quantityBtc >= 0.0 && d.acquisitionEur >= 0.0
            && (Live(d.state) <==> c.mode == Confirm && d.state != REJECTED)
            && d.state != APPROVED && d.state != HEDGE_BROADCAST
            && (Live(d.state) ==>
                 daily + d.quantityBtc <= c.maxDailyBtc && open + d.acquisitionEur <= c.maxOpenEur)
  {
    hide Money, Profit, Margin, Quantity, Acquisition, ExecutableSale;
    QuantityPositive(c, o);
    MoneyBelow(Quantity(o));
    MoneyBelow(Acquisition(c, o));
  }

  /** Profit in basis points: what the sale keeps after fee and slippage, against cost with the risk buffer. */
  lemma ProfitInBps(c: Config, o: Order, gross: real)
    ensures Profit(c, o, gross) * BPS
         == gross * (BPS - c.takerFeeBps - c.slippageBps) - Acquisition(c, o) * (BPS + c.riskBps)
            - (c.bitcoinFeeEur + c.qrxFeeEur) * BPS
  {
    hide Acquisition;
    var cost := Acquisition(c, o);
    assert gross * (BPS - c.takerFeeBps - c.slippageBps)
        == gross * BPS - gross * c.takerFeeBps - gross * c.slippageBps;
    assert cost * (BPS + c.riskBps) == cost * BPS + cost * c.riskBps;
  }

  lemma MarginAtLeast(profit: real, cost: real, least: real)
    requires cost > 0.0
    ensures profit / cost * BPS >= least <==> profit * BPS >= least * cost
  {
    var margin := profit / cost * BPS;
    assert margin * cost == profit * BPS;
    ScaledOrder(margin, least, cost);
  }

  lemma ScaledOrder(x: real, y: real, c: real)
    requires c > 0.0
    ensures x >= y <==> x * c >= y * c
  {
    assert (x - y) * c == x * c - y * c;
    if x >= y { assert (x - y) * c >= 0.0; } else { ProductPositive(y - x, c); assert (y - x) * c == y * c - x * c; }
  }

  /** Within the size, daily and exposure limits. */
  predicate UnderLimits(c: Config, o: Order, daily: real, open: real) {
    && Quantity(o) <= c.maxQuantityBtc
    && daily + Quantity(o) <= c.maxDailyBtc
    && open + Acquisition(c, o) <= c.maxOpenEur
  }

  /** The best sale of the quantity pays cost, buffers, fees and both configured minima. */
  ghost predicate Pays(c: Config, o: Order, gross: real) {
    var kept := gross * (BPS - c.takerFeeBps - c.slippageBps);
    var spent := Acquisition(c, o) * (BPS + c.riskBps) + (c.bitcoinFeeEur + c.qrxFeeEur) * BPS;
    kept - spent >= c.minProfitEur * BPS && kept - spent >= c.minMarginBps * Acquisition(c, o)
  }

  /** An opportunity is accepted exactly when it meets every threshold, in whatever order they are tried. */
  lemma AcceptedIff(c: Config, o: Order, b: Book, now: int, daily: real, open: real)
    requires Evaluate(c, o, b, now, daily, open).Ok?
    ensures var gross := ExecutableSale(b.bids, Quantity(o)).value.proceeds;
            Evaluate(c, o, b, now, daily, open).value.state != REJECTED <==>
              && UnderLimits(c, o, daily, open) && Pays(c, o, gross)
              && (c.mode == Confirm ==> c.prefundedBtc >= Quantity(o) || !c.requirePrefunded)
  {
    var gross := ExecutableSale(b.bids, Quantity(o)).value.proceeds;
    assert Evaluate(c, o, b, now, daily, open).value.state != REJECTED
           <==> Objection(c, o, gross, daily, open) == "" by {
      hide Money, Profit, Margin, Quantity, Acquisition, ExecutableSale, Objection;
    }
    QuantityPositive(c, o);
    PaysIff(c, o, gross);
    hide Money, Profit, Margin, Quantity, Acquisition, ExecutableSale, Evaluate, Pays;
  }

  /** What must be in order before anything is decided and recorded. */
  predicate Evaluates(c: Config, o: Order, b: Book, now: int) {
    && ConfigError(c, now).None? && OrderError(o).None?
    && (b.symbol == "BTC/EUR" || b.symbol == "XBT/EUR")
    && 0 < b.timestamp && now - b.timestamp <= c.maxBookAge
    && 0.0 < Quantity(o) <= Depth(b.bids)
  }

  /** What must hold for an opportunity to await confirmation. */
  ghost predicate Accepts(c: Config, o: Order, b: Book, daily: real, open: real) {
    && c.mode == Confirm
    && UnderLimits(c, o, daily, open) && Pays(c, o, Value(b.bids, Greedy(b.bids, Quantity(o))))
    && (c.prefundedBtc >= Quantity(o) || !c.requirePrefunded)
  }

  /** An evaluation is recorded, and counts from then on, exactly under these conditions. */
  lemma CountsIff(c: Config, o: Order, b: Book, now: int, daily: real, open: real)
    ensures Evaluate(c, o, b, now, daily, open).Ok? <==> Evaluates(c, o, b, now)
    ensures Evaluates(c, o, b, now) ==>
              var d := Evaluate(c, o, b, now, daily, open).value;
              && (Live(d.state) <==> Accepts(c, o, b, daily, open))
              && d.quantityBtc == Money(Quantity(o)) && d.acquisitionEur == Money(Acquisition(c, o))
  {
    hide Money, Profit, Margin, Objection, Acquisition, Quantity, Pays, UnderLimits, ConfigError, OrderError;
    if Evaluate(c, o, b, now, daily, open).Ok? {
      AcceptedIff(c, o, b, now, daily, open);
      LiveDecisionFits(c, o, b, now, daily, open);
    }
  }

  lemma PaysIff(c: Config, o: Order, gross: real)
    requires Acquisition(c, o) > 0.0
    ensures Pays(c, o, gross) <==>
              Profit(c, o, gross) >= c.minProfitEur && Margin(c, o, gross) >= c.minMarginBps
  {
    ProfitInBps(c, o, gross);
    MarginAtLeast(Profit(c, o, gross), Acquisition(c, o), c.minMarginBps);
    hide Profit, Acquisition;
  }

  // ----- the code -----

  method Assess(c: Config, o: Order, b: Book, now: int, daily: real, open: real) returns (r: Result<Decision>)
    requires IsBook(b.bids)
    ensures r == Evaluate(c, o, b, now, daily, open)
  {
    hide Money, Profit, Margin, Acquisition, Quantity, ExecutableSale, ConfigError, OrderError;
    var bad := ConfigError(c, now);
    if bad.Some? { return Refused(bad.value); }
    bad := OrderError(o);
    if bad.Some? { return Refused(bad.value); }
    if b.symbol != "BTC/EUR" && b.symbol != "XBT/EUR" { return Refused("book must be BTC/EUR"); }
    if b.timestamp <= 0 || now - b.timestamp > c.maxBookAge { return Refused("order book is stale"); }
    var quantity, reject := Quantity(o), "";
    if quantity > c.maxQuantityBtc {
      reject := "quantity exceeds per-opportunity BTC limit";
    } else if daily + quantity > c.maxDailyBtc {
      reject := "daily BTC limit would be exceeded";
    }
    var cost := Acquisition(c, o);
    if reject == "" && open + cost > c.maxOpenEur { reject := "open EUR exposure limit would be exceeded"; }
    var sold := ExecuteSale(b.bids, quantity);
    if sold.Refused? { return Refused(sold.reason); }
    var profit, margin := Profit(c, o, sold.value.proceeds), Margin(c, o, sold.value.proceeds);
    if reject == "" && profit < c.minProfitEur { reject := "net profit below configured minimum"; }
    if reject == "" && margin < c.minMarginBps { reject := "net margin below configured minimum"; }
    var liveReady := reject == "" && (c.prefundedBtc >= quantity || !c.requirePrefunded);
    if reject == "" && c.mode == Confirm && !liveReady { reject := "insufficient prefunded Kraken BTC"; }
    r := Ok(Decision(IdOf(o, b), if reject == "" then AcceptedState(c.mode) else REJECTED,
      if reject == "" then "all thresholds satisfied" else reject,
      o.remainingSats, Money(quantity), Money(cost), Money(sold.value.proceeds), Money(sold.value.worst),
      Money(profit), Money(margin), c.oracleTimestamp, b.timestamp, liveReady));
  }
}
