/**
  Which hedges sent to the venue the limits of qrx-core/gateways/qrx-arbitrage-engine.py
  still count, and runs in which they do not.
 */
module BroadcastHedges {

  import opened Wrappers
  import opened OrderBook
  import opened Arbitrage
  import opened OpportunityStore

  // ----- what was sent -----

  /** What stands for a hedge on the venue: a plan handed out by approve, or a report mark-broadcast accepted. */
  datatype Evidence = Plan | Report

  /** A hedge on the venue: the decision approved, when its row was created, when it was handed out or reported. */
  datatype Sent = Sent(id: Id, decision: Decision, created: int, at: int)

  /**
    Every approval hands out a plan. An approved row reported as broadcast is one more
    reported hedge; a broadcast row is only linked anew.
   */
  function SentBy(ev: Evidence, db: Db, a: Action): seq<Sent> {
    match ev
    case Plan =>
      if a.Confirmation? && CanApprove(db, a.id, a.stamp) then
        var r := db.rows[Find(db.rows, a.id).value];
        [Sent(a.id, r.decision, r.createdAt, a.stamp)]
      else []
    case Report =>
      if a.Broadcast? && CanLink(db, a.id, a.hedge) then
        var r := db.rows[Find(db.rows, a.id).value];
        if r.state == APPROVED then [Sent(a.id, r.decision, r.createdAt, a.stamp)] else []
      else []
  }

  /** The column that remembers it. */
  predicate Marked(ev: Evidence, r: Row) {
    match ev case Plan => r.approvedAt.Some? case Report => r.hedge.Some?
  }

  /** All hedges a run sends, in order. */
  function Hedges(ev: Evidence, c: Config, actions: seq<Action>): seq<Sent> {
    if actions == [] then []
    else
      var before := actions[..|actions| - 1];
      Hedges(ev, c, before) + SentBy(ev, Run(c, before), actions[|actions| - 1])
  }

  /** Hedges of opportunities created since the cutoff, each as often as it was sent. */
  function HedgedTotal(m: Measure, sent: seq<Sent>, cutoff: int): real {
    if sent == [] then 0.0
    else
      var h := sent[|sent| - 1];
      HedgedTotal(m, sent[..|sent| - 1], cutoff) + if h.created >= cutoff then Amount(m, h.decision) else 0.0
  }

  // ----- what the limits still count -----

  /** Some row counts at least what was hedged. */
  ghost predicate Covered(rows: seq<Row>, h: Sent) {
    var at := Find(rows, h.id);
    && at.Some?
    && var r := rows[at.value];
       && r.createdAt == h.created && Live(r.state)
       && r.decision.quantityBtc >= h.decision.quantityBtc && r.decision.acquisitionEur >= h.decision.acquisitionEur
  }

  ghost predicate DistinctHedges(sent: seq<Sent>) {
    forall i, j :: 0 <= i < j < |sent| ==> sent[i].id != sent[j].id
  }

  /** Every hedge is covered by a row of its own. */
  ghost predicate Counted(rows: seq<Row>, sent: seq<Sent>) {
    DistinctHedges(sent) && forall i :: 0 <= i < |sent| ==> Covered(rows, sent[i])
  }

  /** The shares of the rows with the given ids. */
  function SharesOf(m: Measure, rows: seq<Row>, cutoff: int, ids: set<Id>): real {
    if rows == [] then 0.0
    else
      var r := rows[|rows| - 1];
      SharesOf(m, rows[..|rows| - 1], cutoff, ids) + if r.id in ids then Share(m, r, cutoff) else 0.0
  }

  lemma {:induction false} SharesWithinExposure(m: Measure, rows: seq<Row>, cutoff: int, ids: set<Id>)
    requires NoDebts(rows)
    ensures 0.0 <= SharesOf(m, rows, cutoff, ids) <= Exposure(m, rows, cutoff, None)
  {
    if rows != [] { SharesWithinExposure(m, rows[..|rows| - 1], cutoff, ids); }
  }

  lemma {:induction false} SharesWithout(m: Measure, rows: seq<Row>, cutoff: int, ids: set<Id>, id: Id)
    requires forall i :: 0 <= i < |rows| ==> rows[i].id != id
    ensures SharesOf(m, rows, cutoff, ids + {id}) == SharesOf(m, rows, cutoff, ids)
  {
    if rows != [] { SharesWithout(m, rows[..|rows| - 1], cutoff, ids, id); }
  }

  lemma {:induction false} SharesAdd(m: Measure, rows: seq<Row>, cutoff: int, ids: set<Id>, i: nat)
    requires DistinctIds(rows) && i < |rows| && rows[i].id !in ids
    ensures SharesOf(m, rows, cutoff, ids + {rows[i].id}) == SharesOf(m, rows, cutoff, ids) + Share(m, rows[i], cutoff)
  {
    var n := |rows| - 1;
    if i == n {
      SharesWithout(m, rows[..n], cutoff, ids, rows[n].id);
    } else {
      SharesAdd(m, rows[..n], cutoff, ids, i);
    }
  }

  function IdsOf(sent: seq<Sent>): set<Id> { set i | 0 <= i < |sent| :: sent[i].id }

  lemma {:induction false} CountedTotal(m: Measure, rows: seq<Row>, sent: seq<Sent>, cutoff: int)
    requires DistinctIds(rows) && NoDebts(rows) && Counted(rows, sent)
    ensures HedgedTotal(m, sent, cutoff) <= SharesOf(m, rows, cutoff, IdsOf(sent))
  {
    if sent == [] {
      SharesWithinExposure(m, rows, cutoff, IdsOf(sent));
    } else {
      var n, h := |sent| - 1, sent[|sent| - 1];
      CountedTotal(m, rows, sent[..n], cutoff);
      assert Covered(rows, h);
      SharesAdd(m, rows, cutoff, IdsOf(sent[..n]), Find(rows, h.id).value);
      assert IdsOf(sent) == IdsOf(sent[..n]) + {h.id};
    }
  }

  // ----- when they stop counting -----

  predicate Hedged(ev: Evidence, rows: seq<Row>, id: Id) {
    var at := Find(rows, id);
    at.Some? && Marked(ev, rows[at.value])
  }

  /** Totals an evaluation is given: the caller's and the store's, without the row at hand. */
  function Total(m: Measure, db: Db, a: Action): real
    requires a.Consider?
  {
    (match m case Btc => a.daily case Eur => a.open)
      + Exposure(m, db.rows, a.at - DAY, Some(IdOf(a.order, a.book)))
  }

  /**
    The two actions that make the limits lose a hedge, told from what is known before:
    evaluating a hedged id that will not be accepted again for at least what was hedged,
    and sending a second hedge under one id.
   */
  ghost predicate Breaks(ev: Evidence, c: Config, db: Db, sent: seq<Sent>, a: Action) {
    match a
    case Consider(o, b, _, _, at, _) =>
      && Hedged(ev, db.rows, IdOf(o, b)) && Evaluates(c, o, b, at)
      && !(Accepts(c, o, b, Total(Btc, db, a), Total(Eur, db, a))
           && forall i :: 0 <= i < |sent| && sent[i].id == IdOf(o, b) ==>
                Money(Acquisition(c, o)) >= sent[i].decision.acquisitionEur)
    case Confirmation(id, stamp) =>
      ev.Plan? && CanApprove(db, id, stamp) && Hedged(ev, db.rows, id)
    case Broadcast(id, hedge, _) =>
      ev.Report? && CanLink(db, id, hedge) && StateOf(db.rows, id) == Some(APPROVED) && Hedged(ev, db.rows, id)
  }

  /** The bitcoin amount an id names. */
  function NamedBtc(id: Id): real { Money(id.quantitySats as real / SATOSHIS) }

  ghost predicate RowTracked(ev: Evidence, r: Row, sent: seq<Sent>) {
    && r.decision.quantityBtc == NamedBtc(r.id)
    && (r.state == HEDGE_BROADCAST ==> r.hedge.Some?)
    && (Marked(ev, r) <==> exists i :: 0 <= i < |sent| && sent[i].id == r.id)
  }

  ghost predicate SentTracked(rows: seq<Row>, h: Sent) {
    && 0.0 <= h.decision.quantityBtc == NamedBtc(h.id) && 0.0 <= h.decision.acquisitionEur
    && Find(rows, h.id).Some? && rows[Find(rows, h.id).value].createdAt == h.created
  }

  /** Hedge column and hedges sent agree. */
  ghost predicate Tracked(ev: Evidence, rows: seq<Row>, sent: seq<Sent>) {
    && (forall i :: 0 <= i < |rows| ==> RowTracked(ev, rows[i], sent))
    && forall i :: 0 <= i < |sent| ==> SentTracked(rows, sent[i])
  }

  lemma FindAfterUpdate(rows: seq<Row>, i: nat, r: Row, id: Id)
    requires DistinctIds(rows) && i < |rows| && r.id == rows[i].id
    ensures Find(rows[i := r], id) == Find(rows, id)
  {
    var new_ := rows[i := r];
    assert DistinctIds(new_);
    if Find(rows, id).Some? {
      assert new_[Find(rows, id).value].id == id;
      FindOnly(new_, Find(rows, id).value);
    } else {
      assert forall j :: 0 <= j < |new_| ==> new_[j].id != id;
    }
  }

  lemma FindAfterAppend(rows: seq<Row>, r: Row, id: Id)
    requires Find(rows, r.id).None?
    ensures Find(rows + [r], id) == if id == r.id then Some(|rows|) else Find(rows, id)
  {
    assert (rows + [r])[..|rows|] == rows;
  }

  // ----- one row changes -----

  /** A row that keeps id, creation, named amount and whether it has a hedge keeps everything tracked. */
  lemma UpdateTracked(ev: Evidence, rows: seq<Row>, i: nat, r: Row, sent: seq<Sent>)
    requires DistinctIds(rows) && Tracked(ev, rows, sent) && i < |rows|
    requires r.id == rows[i].id && r.createdAt == rows[i].createdAt && Marked(ev, r) == Marked(ev, rows[i])
    requires r.decision.quantityBtc == NamedBtc(r.id) && (r.state == HEDGE_BROADCAST ==> r.hedge.Some?)
    ensures Tracked(ev, rows[i := r], sent)
  {
    forall k | 0 <= k < |sent| ensures SentTracked(rows[i := r], sent[k]) {
      assert SentTracked(rows, sent[k]);
      FindAfterUpdate(rows, i, r, sent[k].id);
    }
    assert RowTracked(ev, rows[i], sent);
  }

  /** After one row changes, hedges stay counted exactly when that row covers its own. */
  lemma UpdateCountedIff(ev: Evidence, rows: seq<Row>, i: nat, r: Row, sent: seq<Sent>)
    requires DistinctIds(rows) && Tracked(ev, rows, sent) && Counted(rows, sent) && i < |rows|
    requires r.id == rows[i].id && r.createdAt == rows[i].createdAt && r.decision.quantityBtc == NamedBtc(r.id)
    ensures Counted(rows[i := r], sent) <==>
              forall k :: 0 <= k < |sent| && sent[k].id == r.id ==>
                Live(r.state) && r.decision.acquisitionEur >= sent[k].decision.acquisitionEur
  {
    var new_ := rows[i := r];
    forall k | 0 <= k < |sent|
      ensures Covered(new_, sent[k]) <==>
                (sent[k].id == r.id ==> Live(r.state) && r.decision.acquisitionEur >= sent[k].decision.acquisitionEur)
    {
      FindAfterUpdate(rows, i, r, sent[k].id);
      assert Covered(rows, sent[k]) && SentTracked(rows, sent[k]);
      if sent[k].id == r.id { FindOnly(rows, i); }
    }
  }

  lemma AppendTracked(ev: Evidence, rows: seq<Row>, r: Row, sent: seq<Sent>)
    requires Tracked(ev, rows, sent) && Find(rows, r.id).None? && !Marked(ev, r)
    requires r.decision.quantityBtc == NamedBtc(r.id) && r.state != HEDGE_BROADCAST
    ensures Tracked(ev, rows + [r], sent)
    ensures Counted(rows, sent) ==> Counted(rows + [r], sent)
  {
    forall k | 0 <= k < |sent|
      ensures sent[k].id != r.id && SentTracked(rows + [r], sent[k])
      ensures Covered(rows, sent[k]) ==> Covered(rows + [r], sent[k])
    {
      assert SentTracked(rows, sent[k]);
      FindAfterAppend(rows, r, sent[k].id);
    }
  }

  /** A row that is approved or reported sends a hedge. */
  lemma LinkTracked(ev: Evidence, rows: seq<Row>, i: nat, r: Row, sent: seq<Sent>, h: Sent)
    requires DistinctIds(rows) && NoDebts(rows) && Tracked(ev, rows, sent) && i < |rows|
    requires r.id == rows[i].id == h.id && r.createdAt == rows[i].createdAt == h.created && Marked(ev, r)
    requires r.decision == rows[i].decision == h.decision && (r.state == HEDGE_BROADCAST ==> r.hedge.Some?)
    ensures Tracked(ev, rows[i := r], sent + [h])
  {
    var new_, more := rows[i := r], sent + [h];
    TrackedRow(ev, rows, sent, i);
    FindOnly(rows, i);
    forall k | 0 <= k < |more| ensures SentTracked(new_, more[k]) {
      if k < |sent| { assert SentTracked(rows, sent[k]); }
      FindAfterUpdate(rows, i, r, more[k].id);
    }
    forall k | 0 <= k < |new_| ensures RowTracked(ev, new_[k], more) {
      LinkedRowTracked(ev, rows[k], new_[k], sent, h);
    }
  }

  lemma LinkedRowTracked(ev: Evidence, was: Row, r: Row, sent: seq<Sent>, h: Sent)
    requires RowTracked(ev, was, sent) && r.id == was.id && r.decision == was.decision
    requires if r.id == h.id then Marked(ev, r) && (r.state == HEDGE_BROADCAST ==> r.hedge.Some?) else r == was
    ensures RowTracked(ev, r, sent + [h])
  {
    RowsOfSent(r.id, sent, h);
  }

  lemma RowsOfSent(id: Id, sent: seq<Sent>, h: Sent)
    ensures (exists i :: 0 <= i < |sent + [h]| && (sent + [h])[i].id == id) <==>
              (exists i :: 0 <= i < |sent| && sent[i].id == id) || h.id == id
  {
    var more := sent + [h];
    assert more[|sent|] == h;
    if i :| 0 <= i < |sent| && sent[i].id == id { assert more[i].id == id; }
  }

  // ----- one step -----

  lemma StepTracked(ev: Evidence, c: Config, db: Db, sent: seq<Sent>, a: Action)
    requires Sane(db) && Tracked(ev, db.rows, sent)
    ensures Tracked(ev, Step(c, db, a).rows, sent + SentBy(ev, db, a))
  {
    hide Tracked, Evaluate, Exposure;
    assert sent + [] == sent;
    match a
    case Consider(o, b, _, _, at, stamp) =>
      var r := Evaluate(c, o, b, at, Total(Btc, db, a), Total(Eur, db, a));
      if r.Ok? { ConsiderTracked(ev, c, db, sent, a, r.value); }
    case Confirmation(id, stamp) =>
      if CanApprove(db, id, stamp) { MarkTracked(ev, db, sent, a, Find(db.rows, id).value); }
    case Broadcast(id, hedge, stamp) =>
      if CanLink(db, id, hedge) { MarkTracked(ev, db, sent, a, Find(db.rows, id).value); }
  }

  /** The row an approval or a report leaves. */
  function MarkedRow(r: Row, a: Action): Row
    requires !a.Consider?
  {
    if a.Confirmation? then r.(state := APPROVED, updatedAt := a.stamp, approvedAt := Some(a.stamp))
    else r.(state := HEDGE_BROADCAST, updatedAt := a.stamp, hedge := Some(a.hedge))
  }

  lemma MarkTracked(ev: Evidence, db: Db, sent: seq<Sent>, a: Action, i: nat)
    requires Sane(db) && Tracked(ev, db.rows, sent) && !a.Consider? && Find(db.rows, a.id) == Some(i)
    requires if a.Confirmation? then CanApprove(db, a.id, a.stamp) else CanLink(db, a.id, a.hedge)
    ensures Tracked(ev, db.rows[i := MarkedRow(db.rows[i], a)], sent + SentBy(ev, db, a))
  {
    hide Tracked, Find;
    var was, r := db.rows[i], MarkedRow(db.rows[i], a);
    TrackedRow(ev, db.rows, sent, i);
    if SentBy(ev, db, a) == [] {
      assert sent + [] == sent;
      UpdateTracked(ev, db.rows, i, r, sent);
    } else {
      LinkTracked(ev, db.rows, i, r, sent, Sent(a.id, was.decision, was.createdAt, a.stamp));
    }
  }

  lemma TrackedRow(ev: Evidence, rows: seq<Row>, sent: seq<Sent>, i: nat)
    requires Tracked(ev, rows, sent) && i < |rows|
    ensures RowTracked(ev, rows[i], sent)
  {
  }

  /** What an evaluation writes down, in terms of what was known before. */
  lemma Decided(c: Config, db: Db, a: Action)
    requires a.Consider?
    ensures var r := Evaluate(c, a.order, a.book, a.at, Total(Btc, db, a), Total(Eur, db, a));
            && (r.Ok? <==> Evaluates(c, a.order, a.book, a.at))
            && (r.Ok? ==>
                 && r.value.id == IdOf(a.order, a.book) && r.value.state != HEDGE_BROADCAST
                 && r.value.quantityBtc == NamedBtc(r.value.id)
                 && r.value.acquisitionEur == Money(Acquisition(c, a.order))
                 && (Live(r.value.state) <==> Accepts(c, a.order, a.book, Total(Btc, db, a), Total(Eur, db, a))))
  {
    hide Evaluate, Evaluates, Accepts, Exposure, Money, Acquisition;
    CountsIff(c, a.order, a.book, a.at, Total(Btc, db, a), Total(Eur, db, a));
    if Evaluates(c, a.order, a.book, a.at) {
      LiveDecisionFits(c, a.order, a.book, a.at, Total(Btc, db, a), Total(Eur, db, a));
    }
  }

  lemma ConsiderTracked(ev: Evidence, c: Config, db: Db, sent: seq<Sent>, a: Action, d: Decision)
    requires Sane(db) && Tracked(ev, db.rows, sent) && a.Consider?
    requires Evaluate(c, a.order, a.book, a.at, Total(Btc, db, a), Total(Eur, db, a)) == Ok(d)
    ensures Tracked(ev, Recorded(db, d, a.stamp).rows, sent)
  {
    hide Tracked, Evaluate, Exposure;
    Decided(c, db, a);
    match Find(db.rows, d.id)
    case None => AppendTracked(ev, db.rows, Row(d.id, a.stamp, a.stamp, d.state, d, None, None), sent);
    case Some(i) =>
      UpdateTracked(ev, db.rows, i, db.rows[i].(updatedAt := a.stamp, state := d.state, decision := d), sent);
  }

  /** Hedges stay counted over a step exactly when it is none of the two that break it. */
  lemma StepCountedIff(ev: Evidence, c: Config, db: Db, sent: seq<Sent>, a: Action)
    requires Sane(db) && Tracked(ev, db.rows, sent) && Counted(db.rows, sent)
    ensures Counted(Step(c, db, a).rows, sent + SentBy(ev, db, a)) <==> !Breaks(ev, c, db, sent, a)
  {
    assert sent + [] == sent;
    match a
    case Consider(_, _, _, _, _, _) => ConsiderCountedIff(ev, c, db, sent, a);
    case Confirmation(id, stamp) =>
      if CanApprove(db, id, stamp) { MarkCountedIff(ev, c, db, sent, a, Find(db.rows, id).value); }
    case Broadcast(id, hedge, stamp) =>
      if CanLink(db, id, hedge) { MarkCountedIff(ev, c, db, sent, a, Find(db.rows, id).value); }
  }

  lemma ConsiderCountedIff(ev: Evidence, c: Config, db: Db, sent: seq<Sent>, a: Action)
    requires Sane(db) && Tracked(ev, db.rows, sent) && Counted(db.rows, sent) && a.Consider?
    ensures Counted(Step(c, db, a).rows, sent) <==> !Breaks(ev, c, db, sent, a)
  {
    hide Tracked, Counted, Evaluate, Evaluates, Accepts, Exposure, Money, Acquisition;
    Decided(c, db, a);
    var r := Evaluate(c, a.order, a.book, a.at, Total(Btc, db, a), Total(Eur, db, a));
    if r.Ok? {
      var d := r.value;
      match Find(db.rows, d.id)
      case None => AppendTracked(ev, db.rows, Row(d.id, a.stamp, a.stamp, d.state, d, None, None), sent);
      case Some(i) =>
        TrackedRow(ev, db.rows, sent, i);
        UpdateCountedIff(ev, db.rows, i, db.rows[i].(updatedAt := a.stamp, state := d.state, decision := d), sent);
    }
  }

  /** A row that stays live with its decision keeps its hedges counted. */
  lemma SameCounted(ev: Evidence, rows: seq<Row>, i: nat, r: Row, sent: seq<Sent>)
    requires DistinctIds(rows) && Tracked(ev, rows, sent) && Counted(rows, sent) && i < |rows|
    requires r.id == rows[i].id && r.createdAt == rows[i].createdAt && r.decision == rows[i].decision && Live(r.state)
    ensures Counted(rows[i := r], sent)
  {
    assert RowTracked(ev, rows[i], sent);
    forall k | 0 <= k < |sent| && sent[k].id == r.id
      ensures r.decision.acquisitionEur >= sent[k].decision.acquisitionEur
    {
      assert Covered(rows, sent[k]);
      FindOnly(rows, i);
    }
    UpdateCountedIff(ev, rows, i, r, sent);
  }

  lemma MarkCountedIff(ev: Evidence, c: Config, db: Db, sent: seq<Sent>, a: Action, i: nat)
    requires Sane(db) && Tracked(ev, db.rows, sent) && Counted(db.rows, sent)
    requires !a.Consider? && Find(db.rows, a.id) == Some(i)
    requires if a.Confirmation? then CanApprove(db, a.id, a.stamp) else CanLink(db, a.id, a.hedge)
    ensures Counted(db.rows[i := MarkedRow(db.rows[i], a)], sent + SentBy(ev, db, a)) <==> !Breaks(ev, c, db, sent, a)
  {
    hide Tracked, Counted, Find;
    var was, r := db.rows[i], MarkedRow(db.rows[i], a);
    TrackedRow(ev, db.rows, sent, i);
    SameCounted(ev, db.rows, i, r, sent);
    if SentBy(ev, db, a) == [] {
      assert sent + [] == sent;
    } else {
      OneMoreHedge(db.rows[i := r], i, sent, Sent(a.id, was.decision, was.createdAt, a.stamp));
    }
  }

  /** A further hedge of a live row is counted exactly when it is the first under its id. */
  lemma OneMoreHedge(rows: seq<Row>, i: nat, sent: seq<Sent>, h: Sent)
    requires DistinctIds(rows) && Counted(rows, sent) && i < |rows| && Live(rows[i].state)
    requires h.id == rows[i].id && h.created == rows[i].createdAt && h.decision == rows[i].decision
    ensures Counted(rows, sent + [h]) <==> !exists k :: 0 <= k < |sent| && sent[k].id == h.id
  {
    var more := sent + [h];
    FindOnly(rows, i);
    assert Covered(rows, h);
    if k :| 0 <= k < |sent| && sent[k].id == h.id {
      assert more[k].id == more[|sent|].id;
    }
  }

  // ----- whole runs -----

  lemma {:induction false} RunTracked(ev: Evidence, c: Config, actions: seq<Action>)
    ensures Tracked(ev, Run(c, actions).rows, Hedges(ev, c, actions))
  {
    if actions != [] {
      var before := actions[..|actions| - 1];
      RunTracked(ev, c, before);
      RunSane(c, before);
      StepTracked(ev, c, Run(c, before), Hedges(ev, c, before), actions[|actions| - 1]);
    }
  }

  ghost predicate CountedThroughout(ev: Evidence, c: Config, actions: seq<Action>) {
    && Counted(Run(c, actions).rows, Hedges(ev, c, actions))
    && (actions != [] ==> CountedThroughout(ev, c, actions[..|actions| - 1]))
  }

  ghost predicate NeverBreaks(ev: Evidence, c: Config, actions: seq<Action>) {
    actions != [] ==>
      var before := actions[..|actions| - 1];
      NeverBreaks(ev, c, before) && !Breaks(ev, c, Run(c, before), Hedges(ev, c, before), actions[|actions| - 1])
  }

  /** Every hedge sent stays counted throughout a run exactly when no action of it breaks that. */
  lemma {:induction false} RunCountedIff(ev: Evidence, c: Config, actions: seq<Action>)
    ensures CountedThroughout(ev, c, actions) <==> NeverBreaks(ev, c, actions)
  {
    hide Step, Breaks, Counted, Tracked, SentBy;
    if actions == [] {
      NothingSent();
    } else {
      var before := actions[..|actions| - 1];
      RunCountedIff(ev, c, before);
      RunSane(c, before);
      RunTracked(ev, c, before);
      if Counted(Run(c, before).rows, Hedges(ev, c, before)) {
        StepCountedIff(ev, c, Run(c, before), Hedges(ev, c, before), actions[|actions| - 1]);
      }
    }
  }

  lemma NothingSent()
    ensures Counted(EMPTY.rows, [])
  {
  }

  /** In such runs the hedges of opportunities of the last day, each as often as sent, stay within both limits. */
  lemma RunHedgesWithinLimits(ev: Evidence, m: Measure, c: Config, actions: seq<Action>, start: int, now: int)
    requires c.maxDailyBtc > 0.0 && c.maxOpenEur > 0.0
    requires AdmissibleRun(actions, start) && Clock(actions, start) <= now && NeverBreaks(ev, c, actions)
    ensures HedgedTotal(m, Hedges(ev, c, actions), now - DAY) <= Limit(m, c)
  {
    var rows, sent := Run(c, actions).rows, Hedges(ev, c, actions);
    RunCountedIff(ev, c, actions);
    hide Run, Hedges, Exposure, HedgedTotal, Counted;
    RunSane(c, actions);
    RunWithinLimits(c, actions, start, now);
    CountedTotal(m, rows, sent, now - DAY);
    SharesWithinExposure(m, rows, now - DAY, IdsOf(sent));
  }

  // ----- by the time of the broadcast -----

  /** Hedges broadcast since the cutoff. */
  function BroadcastTotal(m: Measure, sent: seq<Sent>, cutoff: int): real {
    if sent == [] then 0.0
    else
      var h := sent[|sent| - 1];
      BroadcastTotal(m, sent[..|sent| - 1], cutoff) + if h.at >= cutoff then Amount(m, h.decision) else 0.0
  }

  lemma {:induction false} PromptTotal(m: Measure, rows: seq<Row>, sent: seq<Sent>, delay: nat, cutoff: int)
    requires forall i :: 0 <= i < |sent| ==> SentTracked(rows, sent[i]) && sent[i].at <= sent[i].created + delay
    ensures BroadcastTotal(m, sent, cutoff + delay) <= HedgedTotal(m, sent, cutoff)
  {
    if sent != [] { PromptTotal(m, rows, sent[..|sent| - 1], delay, cutoff); }
  }

  /** The window runs from creation: hedges sent within a delay of it are bounded over a day less that delay. */
  lemma RunBroadcastsWithinLimits(ev: Evidence, m: Measure, c: Config, actions: seq<Action>,
                                  start: int, now: int, delay: nat)
    requires c.maxDailyBtc > 0.0 && c.maxOpenEur > 0.0
    requires AdmissibleRun(actions, start) && Clock(actions, start) <= now && NeverBreaks(ev, c, actions)
    requires forall i :: 0 <= i < |Hedges(ev, c, actions)| ==>
               Hedges(ev, c, actions)[i].at <= Hedges(ev, c, actions)[i].created + delay
    ensures BroadcastTotal(m, Hedges(ev, c, actions), now - DAY + delay) <= Limit(m, c)
  {
    hide Run, Hedges, AdmissibleRun, Clock, NeverBreaks, HedgedTotal, BroadcastTotal;
    RunTracked(ev, c, actions);
    RunHedgesWithinLimits(ev, m, c, actions, start, now);
    PromptTotal(m, Run(c, actions).rows, Hedges(ev, c, actions), delay, now - DAY);
  }

  // ----- runs that lose a hedge -----

  const SAMPLE: Config := Config(Confirm, "BTC/EUR", 1.0, 1000, 300, 15, 0.0, 0.0, 0.0, 0.0, 0.0, 0.0, 0.0,
                                 1.0, 1.0, 1000.0, 10.0, true)

  const SAMPLE_BOOK: Book := Book("BTC/EUR", [Level(200.0, 10.0)], 1000)

  /** One bitcoin for that many QUB. */
  function SampleOrder(id: string, qub: nat): Order {
    Order(id, "BTC/QUB", "SELL", "open", 100000000, qub * 100000000)
  }

  lemma SampleSale()
    ensures ExecutableSale(SAMPLE_BOOK.bids, 1.0) == Ok(Sale(200.0, 200.0, 200.0))
  {
    var bids := SAMPLE_BOOK.bids;
    assert bids[1..] == [];
    assert Greedy(bids, 1.0) == [1.0];
    assert Value(bids, [1.0]) == 200.0;
  }

  lemma SampleDecision(id: string, qub: nat, daily: real, open: real)
    requires id != "" && (qub == 100 || qub == 300) && daily == 0.0 && open == 0.0
    ensures var r := Evaluate(SAMPLE, SampleOrder(id, qub), SAMPLE_BOOK, 1000, daily, open);
            && r.Ok?
            && r.value.id == Id(id, "BTC/EUR", 1000, 100000000)
            && r.value.state == (if qub == 100 then AWAITING_CONFIRMATION else REJECTED)
            && r.value.quantityBtc == 1.0
            && (qub == 100 ==> r.value.liveReady)
            && r.value.bookTimestamp == 1000 && r.value.oracleTimestamp == 1000
  {
    SampleSale();
    var o := SampleOrder(id, qub);
    assert Quantity(o) == 1.0;
    assert Acquisition(SAMPLE, o) == qub as real;
    assert Profit(SAMPLE, o, 200.0) == 200.0 - qub as real;
    if qub == 100 { assert Margin(SAMPLE, o, 200.0) == 10000.0; }
    assert Money(1.0) == 1.0;
  }

  function SampleConsider(id: string, qub: nat): Action {
    Consider(SampleOrder(id, qub), SAMPLE_BOOK, 0.0, 0.0, 1000, 1000)
  }

  function SampleId(id: string): Id { Id(id, "BTC/EUR", 1000, 100000000) }

  lemma RunSnoc(c: Config, actions: seq<Action>, a: Action)
    ensures Run(c, actions + [a]) == Step(c, Run(c, actions), a)
  {
    assert (actions + [a])[..|actions|] == actions;
  }

  lemma AdmissibleSnoc(actions: seq<Action>, a: Action)
    requires AdmissibleRun(actions, 1000) && Clock(actions, 1000) == 1000 && Admissible(a, 1000) && a.stamp == 1000
    ensures AdmissibleRun(actions + [a], 1000) && Clock(actions + [a], 1000) == 1000
  {
    assert (actions + [a])[..|actions|] == actions;
  }

  /** Nothing but the given id counts. */
  ghost predicate Idle(rows: seq<Row>, id: string) {
    && Exposure(Btc, rows, 1000 - DAY, Some(SampleId(id))) == 0.0
    && Exposure(Eur, rows, 1000 - DAY, Some(SampleId(id))) == 0.0
  }

  /** A sample row in the given state, with its one bitcoin. */
  ghost predicate SampleRow(r: Row, id: string, state: State) {
    && r.id == SampleId(id) && r.createdAt == 1000 && r.state == state && r.decision.quantityBtc == 1.0
    && (state == AWAITING_CONFIRMATION ==> r.decision.liveReady && Fresh(r.decision, 1000))
  }

  /** A run of the sample moment. */
  ghost predicate SampleRun(actions: seq<Action>) {
    AdmissibleRun(actions, 1000) && Clock(actions, 1000) == 1000
  }

  lemma HedgesSnoc(ev: Evidence, c: Config, actions: seq<Action>, a: Action)
    ensures Hedges(ev, c, actions + [a]) == Hedges(ev, c, actions) + SentBy(ev, Run(c, actions), a)
  {
    assert (actions + [a])[..|actions|] == actions;
  }

  /** An evaluation of the sample order, new or known, accepted at 100 and rejected at 300. */
  lemma SampleConsidered(ev: Evidence, actions: seq<Action>, id: string, qub: nat, n: nat)
    requires id != "" && (qub == 100 || qub == 300) && SampleRun(actions)
    requires var rows := Run(SAMPLE, actions).rows;
             && Idle(rows, id) && n <= |rows|
             && Find(rows, SampleId(id)) == (if n < |rows| then Some(n) else None)
             && (n < |rows| ==> rows[n].createdAt == 1000)
    ensures var next := actions + [SampleConsider(id, qub)];
            var rows, rows' := Run(SAMPLE, actions).rows, Run(SAMPLE, next).rows;
            && SampleRun(next) && Hedges(ev, SAMPLE, next) == Hedges(ev, SAMPLE, actions)
            && |rows'| == (if n < |rows| then |rows| else n + 1)
            && (forall k :: 0 <= k < |rows'| && k != n ==> rows'[k] == rows[k])
            && SampleRow(rows'[n], id, if qub == 100 then AWAITING_CONFIRMATION else REJECTED)
  {
    var a := SampleConsider(id, qub);
    HedgesSnoc(ev, SAMPLE, actions, a);
    AdmissibleSnoc(actions, a);
    hide Run, Hedges, AdmissibleRun, Clock, Exposure, Find, Evaluate, Recorded, Step, Idle;
    assert Hedges(ev, SAMPLE, actions) + [] == Hedges(ev, SAMPLE, actions);
    SampleDecision(id, qub, 0.0, 0.0);
    SampleRecorded(actions, id, qub);
    RecordedAt(Run(SAMPLE, actions), Evaluate(SAMPLE, a.order, a.book, 1000, 0.0, 0.0).value, n);
  }

  lemma SampleRecorded(actions: seq<Action>, id: string, qub: nat)
    requires Idle(Run(SAMPLE, actions).rows, id)
    requires Evaluate(SAMPLE, SampleOrder(id, qub), SAMPLE_BOOK, 1000, 0.0, 0.0).Ok?
    ensures var d := Evaluate(SAMPLE, SampleOrder(id, qub), SAMPLE_BOOK, 1000, 0.0, 0.0).value;
            Run(SAMPLE, actions + [SampleConsider(id, qub)]) == Recorded(Run(SAMPLE, actions), d, 1000)
  {
    RunSnoc(SAMPLE, actions, SampleConsider(id, qub));
    hide Run, Exposure, Evaluate, Recorded;
  }

  lemma RecordedAt(db: Db, d: Decision, n: nat)
    requires n <= |db.rows| && Find(db.rows, d.id) == (if n < |db.rows| then Some(n) else None)
    ensures var rows, rows' := db.rows, Recorded(db, d, 1000).rows;
            && |rows'| == (if n < |rows| then |rows| else n + 1)
            && (forall k :: 0 <= k < |rows'| && k != n ==> rows'[k] == rows[k])
            && rows'[n].id == d.id && rows'[n].state == d.state && rows'[n].decision == d
            && rows'[n].createdAt == if n < |rows| then rows[n].createdAt else 1000
  {
    hide Find;
  }

  /** An accepted sample row is approved and broadcast: one more hedge of one bitcoin. */
  lemma SampleSend(actions: seq<Action>, id: string, n: nat) returns (more: seq<Action>)
    requires SampleRun(actions)
    requires var rows := Run(SAMPLE, actions).rows;
             n < |rows| && Find(rows, SampleId(id)) == Some(n) && SampleRow(rows[n], id, AWAITING_CONFIRMATION)
    ensures SampleRun(more)
    ensures var rows, rows' := Run(SAMPLE, actions).rows, Run(SAMPLE, more).rows;
            && |rows'| == |rows| && (forall k :: 0 <= k < |rows| && k != n ==> rows'[k] == rows[k])
            && SampleRow(rows'[n], id, HEDGE_BROADCAST)
    ensures var sent, sent' := Hedges(Report, SAMPLE, actions), Hedges(Report, SAMPLE, more);
            && |sent'| == |sent| + 1 && sent'[..|sent|] == sent
            && sent'[|sent|].created == 1000 && sent'[|sent|].decision.quantityBtc == 1.0
  {
    var confirm, link := Confirmation(SampleId(id), 1000), Broadcast(SampleId(id), "hedge", 1000);
    var mid := actions + [confirm];
    more := mid + [link];
    RunSnoc(SAMPLE, actions, confirm);
    HedgesSnoc(Report, SAMPLE, actions, confirm);
    AdmissibleSnoc(actions, confirm);
    RunSnoc(SAMPLE, mid, link);
    HedgesSnoc(Report, SAMPLE, mid, link);
    AdmissibleSnoc(mid, link);
    RunSane(SAMPLE, actions);
    hide Run, Hedges, AdmissibleRun, Clock, Find, Exposure;
    var db := Run(SAMPLE, actions);
    var r := db.rows[n].(state := APPROVED, updatedAt := 1000, approvedAt := Some(1000));
    FindAfterUpdate(db.rows, n, r, SampleId(id));
    assert Run(SAMPLE, mid).rows == db.rows[n := r];
  }

  lemma TwoBitcoins(sent: seq<Sent>)
    requires |sent| == 2
    requires forall i :: 0 <= i < 2 ==> sent[i].created == 1000 && sent[i].decision.quantityBtc == 1.0
    ensures HedgedTotal(Btc, sent, 1000 - DAY) == 2.0 > SAMPLE.maxDailyBtc
  {
    assert sent[..1][..0] == [];
    assert HedgedTotal(Btc, sent[..1], 1000 - DAY) == 1.0;
  }

  lemma OnlyRow(rows: seq<Row>, id: string)
    requires |rows| == 1 && rows[0].id == SampleId(id) && id != "b"
    ensures Idle(rows, id) && Find(rows, SampleId(id)) == Some(0)
    ensures Find(rows, SampleId("b")).None? && (rows[0].state == REJECTED ==> Idle(rows, "b"))
  {
    assert rows[..0] == [];
  }

  /** One opportunity accepted, approved and broadcast. */
  lemma OneSampleHedge() returns (actions: seq<Action>)
    ensures SampleRun(actions)
    ensures var rows := Run(SAMPLE, actions).rows; |rows| == 1 && SampleRow(rows[0], "a", HEDGE_BROADCAST)
    ensures var sent := Hedges(Report, SAMPLE, actions);
            |sent| == 1 && sent[0].created == 1000 && sent[0].decision.quantityBtc == 1.0
  {
    SampleConsidered(Report, [], "a", 100, 0);
    var first := [] + [SampleConsider("a", 100)];
    assert first == [SampleConsider("a", 100)];
    OnlyRow(Run(SAMPLE, first).rows, "a");
    actions := SampleSend(first, "a", 0);
  }

  /**
    Evaluated again at a worse price and rejected, the broadcast hedge is forgotten; a
    second opportunity is accepted, approved, broadcast: two bitcoins in one day under
    a daily limit of one.
   */
  lemma ForgottenHedgeExceedsLimit() returns (actions: seq<Action>)
    ensures AdmissibleRun(actions, 1000) && Clock(actions, 1000) == 1000
    ensures HedgedTotal(Btc, Hedges(Report, SAMPLE, actions), 1000 - DAY) > SAMPLE.maxDailyBtc
  {
    var first := OneSampleHedge();
    hide Run, Hedges, AdmissibleRun, Clock, HedgedTotal, Idle;
    OnlyRow(Run(SAMPLE, first).rows, "a");
    SampleConsidered(Report, first, "a", 300, 0);
    var again := first + [SampleConsider("a", 300)];
    OnlyRow(Run(SAMPLE, again).rows, "a");
    SampleConsidered(Report, again, "b", 100, 1);
    var other := again + [SampleConsider("b", 100)];
    actions := SampleSend(other, "b", 1);
    TwoBitcoins(Hedges(Report, SAMPLE, actions));
  }

  /**
    Evaluated again and accepted, the row awaits confirmation as if it were new: it is
    approved and broadcast a second time, two bitcoins under a limit of one, while the
    row still counts one.
   */
  lemma RepeatedHedgeExceedsLimit() returns (actions: seq<Action>)
    ensures AdmissibleRun(actions, 1000) && Clock(actions, 1000) == 1000
    ensures HedgedTotal(Btc, Hedges(Report, SAMPLE, actions), 1000 - DAY) > SAMPLE.maxDailyBtc
    ensures Exposure(Btc, Run(SAMPLE, actions).rows, 1000 - DAY, None) <= SAMPLE.maxDailyBtc
  {
    var first := OneSampleHedge();
    hide Run, Hedges, AdmissibleRun, Clock, HedgedTotal, Idle;
    OnlyRow(Run(SAMPLE, first).rows, "a");
    SampleConsidered(Report, first, "a", 100, 0);
    var again := first + [SampleConsider("a", 100)];
    OnlyRow(Run(SAMPLE, again).rows, "a");
    actions := SampleSend(again, "a", 0);
    TwoBitcoins(Hedges(Report, SAMPLE, actions));
    RunWithinLimits(SAMPLE, actions, 1000, 1000);
  }

  ghost predicate NoReports(actions: seq<Action>) {
    forall i :: 0 <= i < |actions| ==> !actions[i].Broadcast?
  }

  /** Without reports nothing reported can be lost. */
  lemma {:induction false} Unreported(c: Config, actions: seq<Action>)
    requires NoReports(actions)
    ensures Hedges(Report, c, actions) == [] && NeverBreaks(Report, c, actions)
  {
    hide Evaluates, Accepts, Step, Exposure;
    if actions != [] {
      var before, a := actions[..|actions| - 1], actions[|actions| - 1];
      Unreported(c, before);
      RunTracked(Report, c, before);
      if a.Consider? {
        var rows, at := Run(c, before).rows, Find(Run(c, before).rows, IdOf(a.order, a.book));
        if at.Some? { TrackedRow(Report, rows, [], at.value); }
      }
    }
  }

  /** An accepted sample row is approved: one more plan of one bitcoin. */
  lemma SampleApprove(actions: seq<Action>, id: string, n: nat)
    requires SampleRun(actions)
    requires var rows := Run(SAMPLE, actions).rows;
             n < |rows| && Find(rows, SampleId(id)) == Some(n) && SampleRow(rows[n], id, AWAITING_CONFIRMATION)
    ensures var more := actions + [Confirmation(SampleId(id), 1000)];
            && SampleRun(more)
            && (var rows, rows' := Run(SAMPLE, actions).rows, Run(SAMPLE, more).rows;
                && |rows'| == |rows| && (forall k :: 0 <= k < |rows| && k != n ==> rows'[k] == rows[k])
                && SampleRow(rows'[n], id, APPROVED))
            && var sent, sent' := Hedges(Plan, SAMPLE, actions), Hedges(Plan, SAMPLE, more);
               && |sent'| == |sent| + 1 && sent'[..|sent|] == sent
               && sent'[|sent|].created == 1000 && sent'[|sent|].decision.quantityBtc == 1.0
  {
    var confirm := Confirmation(SampleId(id), 1000);
    RunSnoc(SAMPLE, actions, confirm);
    HedgesSnoc(Plan, SAMPLE, actions, confirm);
    AdmissibleSnoc(actions, confirm);
    hide Run, Hedges, AdmissibleRun, Clock, Find, Exposure;
  }

  /** One opportunity accepted and approved. */
  lemma OneSamplePlan() returns (actions: seq<Action>)
    ensures SampleRun(actions) && NoReports(actions)
    ensures var rows := Run(SAMPLE, actions).rows; |rows| == 1 && SampleRow(rows[0], "a", APPROVED)
    ensures var sent := Hedges(Plan, SAMPLE, actions);
            |sent| == 1 && sent[0].created == 1000 && sent[0].decision.quantityBtc == 1.0
  {
    SampleConsidered(Plan, [], "a", 100, 0);
    var first := [] + [SampleConsider("a", 100)];
    assert first == [SampleConsider("a", 100)];
    OnlyRow(Run(SAMPLE, first).rows, "a");
    SampleApprove(first, "a", 0);
    actions := first + [Confirmation(SampleId("a"), 1000)];
  }

  /**
    Evaluated again after its plan was handed out and before any report, the row is
    rejected, mark-broadcast would refuse the report, and a second plan is handed out:
    two bitcoins under a limit of one, although no reported hedge was ever lost.
   */
  lemma UnreportedPlanExceedsLimit() returns (actions: seq<Action>)
    ensures AdmissibleRun(actions, 1000) && Clock(actions, 1000) == 1000 && NeverBreaks(Report, SAMPLE, actions)
    ensures HedgedTotal(Btc, Hedges(Plan, SAMPLE, actions), 1000 - DAY) > SAMPLE.maxDailyBtc
  {
    var planned := OneSamplePlan();
    hide Run, Hedges, AdmissibleRun, Clock, HedgedTotal, Idle, NeverBreaks, SampleConsider;
    OnlyRow(Run(SAMPLE, planned).rows, "a");
    SampleConsidered(Plan, planned, "a", 300, 0);
    var again := planned + [SampleConsider("a", 300)];
    OnlyRow(Run(SAMPLE, again).rows, "a");
    SampleConsidered(Plan, again, "b", 100, 1);
    var other := again + [SampleConsider("b", 100)];
    LastFound(Run(SAMPLE, other).rows, SampleId("b"));
    SampleApprove(other, "b", 1);
    actions := other + [Confirmation(SampleId("b"), 1000)];
    TwoBitcoins(Hedges(Plan, SAMPLE, actions));
    assert NoReports(actions) by { ConsiderIsNone("a", 300); ConsiderIsNone("b", 100); }
    Unreported(SAMPLE, actions);
  }

  lemma ConsiderIsNone(id: string, qub: nat)
    ensures !SampleConsider(id, qub).Broadcast?
  {
  }

  lemma LastFound(rows: seq<Row>, id: Id)
    requires rows != [] && rows[|rows| - 1].id == id
    ensures Find(rows, id) == Some(|rows| - 1)
  {
  }
}
